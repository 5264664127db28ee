/**
 * `Sidekiq/KeywordArguments`: keyword parameters of a job's `perform` cannot
 * be filled from the serialized arguments, so each of them is reported.
 *
 * The source asks `in_sidekiq_worker?`, which no helper defines: as written,
 * every `perform` with keyword parameters raises. `OnDefAsWritten` models
 * that; `OnDef` uses `in_sidekiq_job?`, the helper the name evidently meant.
 */
module KeywordArguments {
  import opened Wrappers
  import opened Syntax
  import opened Sequences
  import opened Reports
  import opened Helpers

  const Msg := "Keyword arguments are not allowed in a sidekiq worker's perform method."

  /** `KWARG_TYPES`. */
  predicate IsKeyword(p: Node) {
    p.kind == Kwarg || p.kind == Kwoptarg || p.kind == Kwrestarg
  }

  /** `node.arguments` of a `def`: the children of its `args` node. */
  function Parameters(n: Node): (r: seq<Node>)
    ensures n.kind == Def && |n.kids| == 1 && n.kids[0].kind == Args ==> r == n.kids[0].kids
  {
    if n.kind == Def && |n.kids| == 1 && n.kids[0].kind == Args then n.kids[0].kids else []
  }

  /**
   * `perform_with_kwargs?`, the NodePattern
   * `(def :perform (args ... {kwarg kwoptarg kwrestarg}) ...)`: a `perform`
   * whose last parameter is a keyword parameter (a trailing `&block` hides them).
   */
  predicate PerformWithKeywords(n: Node) {
    n.kind == Def && n.name == "perform" && |n.kids| == 1 && n.kids[0].kind == Args && EndsWithKeyword(n.kids[0].kids)
  }

  /** `(args ... {kwarg kwoptarg kwrestarg})`. */
  predicate EndsWithKeyword(ps: seq<Node>) {
    |ps| > 0 && IsKeyword(ps[|ps| - 1])
  }

  function Message(p: Node): string
  {
    Msg
  }

  /** `on_def` as written: the call to the undefined `in_sidekiq_worker?` raises. */
  function OnDefAsWritten(n: Node, ancestors: seq<Node>): (r: Result<seq<Offense>>)
    ensures r.Failure? <==> PerformWithKeywords(n)
    ensures r.Success? ==> r.value == []
  {
    if !PerformWithKeywords(n) then Success([])
    else Failure("undefined method `in_sidekiq_worker?'")
  }

  /**
   * `on_def` with `in_sidekiq_job?`: inside a job, each keyword parameter of
   * `perform` is reported in order, and nothing else is.
   */
  function OnDef(n: Node, ancestors: seq<Node>): (r: seq<Offense>)
    ensures r != [] <==> PerformWithKeywords(n) && InSidekiqJob(ancestors).Some?
    ensures r != [] ==> OffensesFrom(r, Parameters(n), IsKeyword, Message) && OffensesFor(r, Parameters(n), IsKeyword, Message)
    ensures r != [] ==> r == Report(Filter(Parameters(n), IsKeyword), Message)
  {
    if !PerformWithKeywords(n) || InSidekiqJob(ancestors).None? then []
    else
      var ps := Parameters(n);
      assert ps == n.kids[0].kids;
      LastKeywordReported(ps);
      ReportWhere(ps, IsKeyword, Message)
  }

  /** A parameter list ending in a keyword parameter yields at least that offense. */
  lemma LastKeywordReported(ps: seq<Node>)
    requires EndsWithKeyword(ps)
    ensures ReportWhere(ps, IsKeyword, Message) != []
  {
    var last := ps[|ps| - 1];
    assert last in ps;
    assert Offense(last.range, Msg) in ReportWhere(ps, IsKeyword, Message);
  }

  /** `def perform(<params>)` in a job class. */
  function PerformDef(params: seq<Node>, r: Range): Node {
    Node(Def, None, "perform", [Node(Args, None, "", params, None, r)], None, r)
  }

  /** Inside a job, the keyword parameters of `perform` are reported at their ranges. */
  lemma OnDefInJob(params: seq<Node>, r: Range, ancestors: seq<Node>)
    requires EndsWithKeyword(params) && InSidekiqJob(ancestors).Some?
    ensures OnDef(PerformDef(params, r), ancestors) == ReportWhere(params, IsKeyword, Message)
  {
    assert PerformWithKeywords(PerformDef(params, r));
    assert Parameters(PerformDef(params, r)) == params;
  }

  /** Of `a, *b, c:, **d`, the keyword parameters `c:` and `**d` are selected. */
  lemma MixedSelection(x: Node, y: Node, z: Node, w: Node)
    requires !IsKeyword(x) && !IsKeyword(y) && IsKeyword(z) && IsKeyword(w)
    ensures ReportWhere([x, y, z, w], IsKeyword, Message) == [Offense(z.range, Msg), Offense(w.range, Msg)]
  {
    assert [x, y, z, w] == [x] + ([y] + ([z] + ([w] + [])));
    FilterCons(x, [y] + ([z] + ([w] + [])), IsKeyword);
    FilterCons(y, [z] + ([w] + []), IsKeyword);
    FilterTwo(z, w, [], IsKeyword);
  }

  /** `def perform(a, *b, c:, **d)` in a job class: `c:` and `**d` are reported, in that order. */
  lemma MixedParameters(a: Range, b: Range, c: Range, d: Range, r: Range)
    ensures var ps := [Leaf(Arg, "a", a), Leaf(Restarg, "b", b), Leaf(Kwarg, "c", c), Leaf(Kwrestarg, "d", d)];
            OnDef(PerformDef(ps, r), [JobBody(PerformDef(ps, r), r), JobClass(PerformDef(ps, r), r)]) ==
            [Offense(c, Msg), Offense(d, Msg)]
  {
    var x, y, z, w := Leaf(Arg, "a", a), Leaf(Restarg, "b", b), Leaf(Kwarg, "c", c), Leaf(Kwrestarg, "d", d);
    var n := PerformDef([x, y, z, w], r);
    InJobClass(n, r);
    MixedKinds(a, b, c, d);
    MixedInJob(x, y, z, w, r, [JobBody(n, r), JobClass(n, r)]);
  }

  /** Of `a, *b, c:, **d`, the last two parameters are keywords. */
  lemma MixedKinds(a: Range, b: Range, c: Range, d: Range)
    ensures !IsKeyword(Leaf(Arg, "a", a)) && !IsKeyword(Leaf(Restarg, "b", b))
    ensures IsKeyword(Leaf(Kwarg, "c", c)) && IsKeyword(Leaf(Kwrestarg, "d", d))
  {
  }

  /** Parameters shaped as `a, *b, c:, **d`, under any ancestors that make a job. */
  lemma MixedInJob(x: Node, y: Node, z: Node, w: Node, r: Range, ancestors: seq<Node>)
    requires !IsKeyword(x) && !IsKeyword(y) && IsKeyword(z) && IsKeyword(w)
    requires InSidekiqJob(ancestors).Some?
    ensures OnDef(PerformDef([x, y, z, w], r), ancestors) == [Offense(z.range, Msg), Offense(w.range, Msg)]
  {
    OnDefInJob([x, y, z, w], r, ancestors);
    MixedSelection(x, y, z, w);
  }

  /** The same `perform`, written as it is in a job, raises as written. */
  lemma KeywordPerformRaises(r: Range)
    ensures var n := PerformDef([Leaf(Kwarg, "foo", r)], r);
            OnDefAsWritten(n, [JobBody(n, r), JobClass(n, r)]).Failure? &&
            OnDef(n, [JobBody(n, r), JobClass(n, r)]) == [Offense(r, Msg)]
  {
    var p := Leaf(Kwarg, "foo", r);
    var n := PerformDef([p], r);
    InJobClass(n, r);
    OnDefInJob([p], r, [JobBody(n, r), JobClass(n, r)]);
    ReportWhereSingle(p, IsKeyword, Message);
  }

  /** Methods other than `perform`, and `perform` outside a job, are not reported. */
  lemma OthersIgnored(params: seq<Node>, r: Range)
    ensures OnDef(Node(Def, None, "foo", [Node(Args, None, "", params, None, r)], None, r), []) == []
    ensures OnDef(PerformDef(params, r), []) == []
  {
  }
}

/**
 * `Sidekiq/ActiveRecordArgument`: ActiveRecord query results passed to a job
 * cannot be serialized. Every query call on a constant found anywhere in a
 * `perform_*` call is reported, except one lying within a query already
 * reported (so a chain is reported once, as a whole).
 */
module ActiveRecordArgument {
  import opened Wrappers
  import opened Syntax
  import opened Sequences
  import opened Reports
  import opened Helpers

  const Msg := "ActiveRecord objects are not Sidekiq-serializable."

  /**
   * The querying methods that return records or relations, in the groups the
   * source lists them in (a single set display this large is beyond what the
   * verifier unfolds).
   */
  const FinderMethods: set<string> := {"all", "find", "find_by", "find_by!", "take", "take!", "first", "first!", "last", "last!"}
  const OrdinalMethods: set<string> :=
    {"second", "second!", "third", "third!", "fourth", "fourth!", "fifth", "fifth!",
     "forty_two", "forty_two!", "third_to_last", "third_to_last!", "second_to_last", "second_to_last!"}
  const CreatingMethods: set<string> :=
    {"first_or_create", "first_or_create!", "first_or_initialize",
     "find_or_create_by", "find_or_create_by!", "find_or_initialize_by",
     "create_or_find_by", "create_or_find_by!", "destroy_by", "delete_by",
     "find_each", "find_in_batches", "in_batches"}
  const RelationMethods: set<string> :=
    {"select", "reselect", "order", "reorder", "group", "limit", "offset", "joins", "left_joins", "left_outer_joins"}
  const ScopingMethods: set<string> :=
    {"where", "rewhere", "preload", "extract_associated", "eager_load", "includes", "from", "lock", "readonly", "extending", "or"}
  const MergingMethods: set<string> :=
    {"having", "create_with", "distinct", "references", "none", "unscope", "optimizer_hints", "merge", "except", "only"}

  const ActiveRecordMethods: set<string> :=
    FinderMethods + OrdinalMethods + CreatingMethods + RelationMethods + ScopingMethods + MergingMethods

  predicate IsConst(n: Node) {
    n.kind == Const
  }

  /** The pattern of `ar_method_calls`: a query method called on something that is or contains a constant. */
  predicate ArMethodCall(n: Node) {
    n.kind == Send && n.recv.Some? && Somewhere(n.recv.value, IsConst) && n.name in ActiveRecordMethods
  }

  /** `ar_method_calls(node)`: the matching nodes of the whole call, in pre-order. */
  function Candidates(node: Node): (r: seq<Node>)
    ensures forall i :: 0 <= i < |r| ==> ArMethodCall(r[i])
    ensures forall x :: x in r <==> x in Preorder(node) && ArMethodCall(x)
  {
    FilterMembers(Preorder(node), ArMethodCall);
    Filter(Preorder(node), ArMethodCall)
  }

  function RangesOf(nodes: seq<Node>): (r: seq<Range>)
    ensures |r| == |nodes| && forall i :: 0 <= i < |nodes| ==> r[i] == nodes[i].range
  {
    seq(|nodes|, i requires 0 <= i < |nodes| => nodes[i].range)
  }

  /**
   * The candidates `on_send` reports, given the ranges denied before it:
   * each one outside every denied range is reported, and its range denied.
   */
  function Deny(cands: seq<Node>, denied: seq<Range>): seq<Node>
    decreases |cands|
  {
    if cands == [] then []
    else
      var f := Deny(cands[..|cands| - 1], denied);
      var a := cands[|cands| - 1];
      if Covered(denied + RangesOf(f), a.range) then f else f + [a]
  }

  lemma DenyStep(cands: seq<Node>, i: nat, denied: seq<Range>)
    requires i < |cands|
    ensures var f := Deny(cands[..i], denied);
            Deny(cands[..i + 1], denied) ==
              if Covered(denied + RangesOf(f), cands[i].range) then f else f + [cands[i]]
  {
    assert cands[..i + 1][..i] == cands[..i];
  }

  /** Every reported node is a candidate outside the ranges denied before. */
  lemma {:induction false} DenySound(cands: seq<Node>, denied: seq<Range>)
    ensures forall x :: x in Deny(cands, denied) ==> x in cands && !Covered(denied, x.range)
    decreases |cands|
  {
    if cands != [] {
      var init := cands[..|cands| - 1];
      DenySound(init, denied);
      var f := Deny(init, denied);
      CoveredPrefix(denied, denied + RangesOf(f), cands[|cands| - 1].range);
      assert forall x :: x in init ==> x in cands;
    }
  }

  /** No node lies within the range of one before it. */
  predicate Unnested(f: seq<Node>) {
    forall i, j :: 0 <= i < j < |f| ==> !Within(f[j].range, f[i].range)
  }

  /** No reported node lies within the range of one reported before it. */
  lemma {:induction false} DenyNoNesting(cands: seq<Node>, denied: seq<Range>)
    ensures Unnested(Deny(cands, denied))
    decreases |cands|
  {
    if cands != [] {
      var init := cands[..|cands| - 1];
      DenyNoNesting(init, denied);
      var f0 := Deny(init, denied);
      var f := Deny(cands, denied);
      var a := cands[|cands| - 1];
      var rs := denied + RangesOf(f0);
      if !Covered(rs, a.range) {
        assert f == f0 + [a];
        forall i, j | 0 <= i < j < |f|
          ensures !Within(f[j].range, f[i].range)
        {
          assert f[i] == f0[i];
          if j < |f0| {
            assert f[j] == f0[j];
          } else {
            assert f[j] == a;
            assert rs[|denied| + i] == f0[i].range;
            assert !Within(a.range, rs[|denied| + i]);
          }
        }
      } else {
        assert f == f0;
      }
    }
  }

  /** Every candidate is reported, or lies within a range denied before or reported. */
  lemma {:induction false} DenyComplete(cands: seq<Node>, denied: seq<Range>)
    ensures forall i :: 0 <= i < |cands| ==>
              cands[i] in Deny(cands, denied) || Covered(denied + RangesOf(Deny(cands, denied)), cands[i].range)
    decreases |cands|
  {
    if cands != [] {
      var init := cands[..|cands| - 1];
      DenyComplete(init, denied);
      var f0 := Deny(init, denied);
      var f := Deny(cands, denied);
      assert |f0| <= |f| && f[..|f0|] == f0;
      assert (denied + RangesOf(f))[..|denied + RangesOf(f0)|] == denied + RangesOf(f0);
      forall i | 0 <= i < |cands|
        ensures cands[i] in f || Covered(denied + RangesOf(f), cands[i].range)
      {
        CoveredPrefix(denied + RangesOf(f0), denied + RangesOf(f), cands[i].range);
        if i < |init| {
          assert cands[i] == init[i];
          if cands[i] in f0 {
            assert cands[i] in f;
          }
        }
      }
    }
  }

  /**
   * What `on_send` promises for a `perform_*` call: every query call anywhere
   * in it is reported, or lies within a range denied before or reported.
   */
  lemma QueriesReported(node: Node, denied: seq<Range>, x: Node)
    requires x in Preorder(node) && ArMethodCall(x)
    ensures var f := Deny(Candidates(node), denied);
            x in f || Covered(denied + RangesOf(f), x.range)
  {
    var cands := Candidates(node);
    DenyComplete(cands, denied);
    var i :| 0 <= i < |cands| && cands[i] == x;
  }

  lemma RangesOfAppend(nodes: seq<Node>, x: Node)
    ensures RangesOf(nodes + [x]) == RangesOf(nodes) + [x.range]
  {
  }

  /** The offenses for the given nodes, all with the one message. */
  function Offenses(nodes: seq<Node>): seq<Offense> {
    Report(nodes, n => Msg)
  }

  /** A cop instance: the ranges it has denied in the file, and its offenses. */
  class Cop {
    const denied: ApprovedRanges
    var offenses: seq<Offense>

    constructor()
      ensures fresh(denied) && denied.ranges == [] && offenses == []
    {
      denied := new ApprovedRanges();
      offenses := [];
    }

    /** `on_send`: report the query calls of a `perform_*` call. */
    method OnSend(node: Node)
      modifies this, denied
      ensures SidekiqPerform(node).None? ==> denied.ranges == old(denied.ranges) && offenses == old(offenses)
      ensures SidekiqPerform(node).Some? ==>
                var f := Deny(Candidates(node), old(denied.ranges));
                denied.ranges == old(denied.ranges) + RangesOf(f) && offenses == old(offenses) + Offenses(f)
    {
      if SidekiqPerform(node).None? {
        return;
      }
      DenyEach(Candidates(node));
    }

    /** The `each` loop of `on_send`: report and deny each candidate outside the denied ranges. */
    method DenyEach(cands: seq<Node>)
      modifies this, denied
      ensures var f := Deny(cands, old(denied.ranges));
              denied.ranges == old(denied.ranges) + RangesOf(f) && offenses == old(offenses) + Offenses(f)
    {
      ghost var ranges0 := denied.ranges;
      ghost var offenses0 := offenses;
      ghost var f: seq<Node> := [];
      for i := 0 to |cands|
        invariant f == Deny(cands[..i], ranges0)
        invariant denied.ranges == ranges0 + RangesOf(f)
        invariant offenses == offenses0 + Offenses(f)
      {
        DenyStep(cands, i, ranges0);
        f := DenyOne(cands[i], f, ranges0, offenses0);
      }
      assert cands[..|cands|] == cands;
    }

    /** The body of the `each` loop, for one candidate: report and deny it unless it is denied already. */
    method DenyOne(arg: Node, ghost f: seq<Node>, ghost ranges0: seq<Range>, ghost offenses0: seq<Offense>)
      returns (ghost f': seq<Node>)
      requires denied.ranges == ranges0 + RangesOf(f) && offenses == offenses0 + Offenses(f)
      modifies this, denied
      ensures f' == if Covered(ranges0 + RangesOf(f), arg.range) then f else f + [arg]
      ensures denied.ranges == ranges0 + RangesOf(f') && offenses == offenses0 + Offenses(f')
    {
      f' := f;
      var isDenied := denied.IsApproved(arg);
      if isDenied {
        return;
      }
      ReportAppend(f, arg, n => Msg);
      RangesOfAppend(f, arg);
      offenses := offenses + [Offense(arg.range, Msg)];
      denied.Approve(arg);
      f' := f + [arg];
    }
  }

  /** The method names the examples use. */
  lemma QueryNames()
    ensures "first" in ActiveRecordMethods && "where" in ActiveRecordMethods && "all" in ActiveRecordMethods
  {
    assert "first" in FinderMethods && "all" in FinderMethods && "where" in ScopingMethods;
  }

  /** `perform_async` is not a query method. */
  lemma PerformNotQuery()
    ensures "perform_async" !in ActiveRecordMethods
  {
    PerformNotFinder();
    PerformNotOrdinal();
    PerformNotCreating();
    PerformNotRelation();
    PerformNotScoping();
    PerformNotMerging();
  }

  lemma PerformNotFinder()
    ensures "perform_async" !in FinderMethods
  {
  }

  lemma PerformNotOrdinal()
    ensures "perform_async" !in OrdinalMethods
  {
  }

  lemma PerformNotCreating()
    ensures "perform_async" !in CreatingMethods
  {
  }

  lemma PerformNotRelation()
    ensures "perform_async" !in RelationMethods
  {
  }

  lemma PerformNotScoping()
    ensures "perform_async" !in ScopingMethods
  {
  }

  lemma PerformNotMerging()
    ensures "perform_async" !in MergingMethods
  {
  }

  /** `foo.find` is not a query: its receiver holds no constant. */
  lemma InstanceFindIgnored(r: Range)
    ensures !ArMethodCall(SendNode(Some(SendNode(None, "foo", [], r)), "find", [], r))
  {
    var foo := SendNode(None, "foo", [], r);
    PreorderLeaf(foo);
    assert !IsConst(Preorder(foo)[0]);
  }

  /** The walk of `foo: :bar`. */
  lemma PairPreorder(pair: Node, hash: Node, r: Range)
    requires pair == Node(Pair, None, "", [Leaf(Sym, "foo", r), Leaf(Sym, "bar", r)], None, r)
    requires hash == Node(Hash, None, "", [pair], None, r)
    ensures Preorder(hash) == [hash, pair, pair.kids[0], pair.kids[1]]
  {
    PreorderLeaf(pair.kids[0]);
    PreorderLeaf(pair.kids[1]);
    PreorderAllSingle(pair.kids[1]);
    PreorderAllCons(pair.kids[0], [pair.kids[1]]);
    assert [pair.kids[0]] + [pair.kids[1]] == pair.kids;
    assert Preorder(pair) == [pair, pair.kids[0], pair.kids[1]];
    PreorderAllSingle(pair);
  }

  /** The walk of `Model.where(foo: :bar).first`. */
  lemma ChainPreorder(model: Node, pair: Node, hash: Node, where: Node, first: Node, r: Range, w: Range, f: Range)
    requires model == Leaf(Const, "Model", r)
    requires pair == Node(Pair, None, "", [Leaf(Sym, "foo", r), Leaf(Sym, "bar", r)], None, r)
    requires hash == Node(Hash, None, "", [pair], None, r)
    requires where == SendNode(Some(model), "where", [hash], w)
    requires first == SendNode(Some(where), "first", [], f)
    ensures Preorder(first) == [first, where] + [model, hash, pair, pair.kids[0], pair.kids[1]]
  {
    PreorderLeaf(model);
    PairPreorder(pair, hash, r);
    PreorderAllSingle(hash);
    PreorderCall(where);
    PreorderCall(first);
    assert PreorderAll([]) == [];
  }

  /** Both calls of the chain are queries on a constant. */
  lemma ChainQueries(model: Node, hash: Node, where: Node, first: Node, r: Range, w: Range, f: Range)
    requires model == Leaf(Const, "Model", r)
    requires where == SendNode(Some(model), "where", [hash], w)
    requires first == SendNode(Some(where), "first", [], f)
    ensures ArMethodCall(where) && ArMethodCall(first)
  {
    QueryNames();
    assert Preorder(model)[0] == model;
    PreorderCall(where);
    assert Preorder(where)[1] == model;
  }

  /** Both calls of the chain are candidates, the outer one first. */
  lemma ChainCandidates(model: Node, pair: Node, hash: Node, where: Node, first: Node, r: Range, w: Range, f: Range)
    requires model == Leaf(Const, "Model", r)
    requires pair == Node(Pair, None, "", [Leaf(Sym, "foo", r), Leaf(Sym, "bar", r)], None, r)
    requires hash == Node(Hash, None, "", [pair], None, r)
    requires where == SendNode(Some(model), "where", [hash], w)
    requires first == SendNode(Some(where), "first", [], f)
    ensures Candidates(first) == [first, where]
  {
    ChainPreorder(model, pair, hash, where, first, r, w, f);
    ChainQueries(model, hash, where, first, r, w, f);
    var rest := [model, hash, pair, pair.kids[0], pair.kids[1]];
    FiveNonCalls(model, hash, pair, pair.kids[0], pair.kids[1]);
    FilterPairFirst(first, where, rest, ArMethodCall);
  }

  lemma FiveNonCalls(a: Node, b: Node, c: Node, d: Node, e: Node)
    requires a.kind != Send && b.kind != Send && c.kind != Send && d.kind != Send && e.kind != Send
    ensures Filter([a, b, c, d, e], ArMethodCall) == []
  {
    assert !ArMethodCall(a) && !ArMethodCall(b) && !ArMethodCall(c) && !ArMethodCall(d) && !ArMethodCall(e);
    FilterNoneOfFive(a, b, c, d, e, ArMethodCall);
  }

  /** Only calls are queries: a walk holding no call holds no candidate. */
  lemma NoQueriesAmong(s: seq<Node>)
    requires forall i :: 0 <= i < |s| ==> s[i].kind != Send
    ensures Filter(s, ArMethodCall) == []
  {
    FilterNone(s, ArMethodCall);
  }

  /** A candidate within the one before it is not reported. */
  lemma DenyInner(outer: Node, inner: Node)
    requires Within(inner.range, outer.range)
    ensures Deny([outer, inner], []) == [outer]
  {
    assert [outer, inner][..1] == [outer];
    assert [outer][..0] == [];
    var none: seq<Range> := [];
    assert none + RangesOf([]) == [];
    assert Deny([outer], none) == [outer];
    assert none + RangesOf([outer]) == [outer.range];
    assert Within(inner.range, [outer.range][0]);
  }

  /** `Model.where(foo: :bar).first` is reported once, as the whole chain. */
  lemma ChainReportedOnce(model: Node, pair: Node, hash: Node, where: Node, first: Node, r: Range, w: Range, f: Range)
    requires model == Leaf(Const, "Model", r)
    requires pair == Node(Pair, None, "", [Leaf(Sym, "foo", r), Leaf(Sym, "bar", r)], None, r)
    requires hash == Node(Hash, None, "", [pair], None, r)
    requires where == SendNode(Some(model), "where", [hash], w)
    requires first == SendNode(Some(where), "first", [], f) && Within(w, f)
    ensures Deny(Candidates(first), []) == [first]
  {
    ChainCandidates(model, pair, hash, where, first, r, w, f);
    DenyInner(first, where);
  }

  lemma NestedQueryPreorder(job: Node, model: Node, all: Node, finder: Node, perform: Node, r: Range)
    requires job == Leaf(Const, "MyJob", r) && model == Leaf(Const, "Model", r)
    requires all == SendNode(Some(model), "all", [], r)
    requires finder == SendNode(None, "finder", [all], r)
    requires perform == SendNode(Some(job), "perform_async", [finder], r)
    ensures Preorder(perform) == [perform, job, finder, all, model]
  {
    PreorderLeaf(job);
    PreorderLeaf(model);
    assert PreorderAll([]) == [];
    PreorderCall(all);
    PreorderAllSingle(all);
    PreorderCall(finder);
    PreorderAllSingle(finder);
    PreorderCall(perform);
  }

  /** In `MyJob.perform_async(finder(Model.all))` the query passed to another call is found. */
  lemma NestedQueryFound(job: Node, model: Node, all: Node, finder: Node, perform: Node, r: Range)
    requires job == Leaf(Const, "MyJob", r) && model == Leaf(Const, "Model", r)
    requires all == SendNode(Some(model), "all", [], r)
    requires finder == SendNode(None, "finder", [all], r)
    requires perform == SendNode(Some(job), "perform_async", [finder], r)
    ensures Candidates(perform) == [all]
  {
    NestedQueryPreorder(job, model, all, finder, perform, r);
    QueryNames();
    PerformNotQuery();
    assert ArMethodCall(all) by {
      assert Preorder(model)[0] == model;
    }
    assert !ArMethodCall(perform);
    FilterSingle(model, ArMethodCall);
    FilterCons(all, [model], ArMethodCall);
    FilterCons(finder, [all, model], ArMethodCall);
    FilterCons(job, [finder, all, model], ArMethodCall);
    FilterCons(perform, [job, finder, all, model], ArMethodCall);
  }
}

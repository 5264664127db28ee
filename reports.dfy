/** What a cop produces: offenses, and the source edits of an autocorrection. */
module Reports {
  import opened Syntax
  import opened Sequences

  /** `add_offense(node_or_range, message:)`: an offense at a source range. */
  datatype Offense = Offense(range: Range, message: string)

  /** One corrector edit: the text in `range` is replaced by `text`; an insertion has an empty range. */
  datatype Edit = Edit(range: Range, text: string)

  /** `corrector.insert_after(range, text)`. */
  function InsertAfter(r: Range, text: string): (e: Edit)
    ensures e.range.begin == e.range.end == r.end && e.text == text
  {
    Edit(Range(r.end, r.end), text)
  }

  /** Edits inside `src`, in source order and not overlapping. */
  predicate Applicable(src: string, edits: seq<Edit>) {
    (forall i :: 0 <= i < |edits| ==> edits[i].range.begin <= edits[i].range.end <= |src|) &&
    (forall i :: 0 <= i < |edits| - 1 ==> edits[i].range.end <= edits[i + 1].range.begin)
  }

  /**
   * The rewritten source from offset `pos` on. Insertions at the same offset
   * keep the order in which they were requested.
   */
  function ApplyFrom(src: string, edits: seq<Edit>, pos: nat): string
    requires Applicable(src, edits) && pos <= |src|
    requires edits != [] ==> pos <= edits[0].range.begin
    decreases |edits|
  {
    if edits == [] then src[pos..]
    else
      var e := edits[0];
      src[pos..e.range.begin] + e.text + ApplyFrom(src, edits[1..], e.range.end)
  }

  /** The corrected source after all of a cop's edits. */
  function Apply(src: string, edits: seq<Edit>): string
    requires Applicable(src, edits)
  {
    ApplyFrom(src, edits, 0)
  }

  /** One offense per node, at the node's range, with the message chosen for it. */
  function Report(nodes: seq<Node>, message: Node -> string): (r: seq<Offense>)
    ensures |r| == |nodes|
    ensures forall i :: 0 <= i < |r| ==> r[i].range == nodes[i].range && r[i].message == message(nodes[i])
  {
    seq(|nodes|, i requires 0 <= i < |nodes| => Offense(nodes[i].range, message(nodes[i])))
  }

  /** Reporting one more node adds its offense at the end. */
  lemma ReportAppend(nodes: seq<Node>, x: Node, message: Node -> string)
    ensures Report(nodes + [x], message) == Report(nodes, message) + [Offense(x.range, message(x))]
  {
  }

  /** Every offense in `r` is that of a node among `nodes` satisfying `p`. */
  predicate OffensesFrom(r: seq<Offense>, nodes: seq<Node>, p: Node -> bool, message: Node -> string) {
    forall i :: 0 <= i < |r| ==> OffenseOf(r[i], nodes, p, message)
  }

  /** `o` is the offense of some node among `nodes` satisfying `p`. */
  predicate OffenseOf(o: Offense, nodes: seq<Node>, p: Node -> bool, message: Node -> string) {
    exists j :: 0 <= j < |nodes| && p(nodes[j]) && o == Offense(nodes[j].range, message(nodes[j]))
  }

  /** Every node among `nodes` satisfying `p` has its offense in `r`. */
  predicate OffensesFor(r: seq<Offense>, nodes: seq<Node>, p: Node -> bool, message: Node -> string) {
    forall j :: 0 <= j < |nodes| && p(nodes[j]) ==> Offense(nodes[j].range, message(nodes[j])) in r
  }

  /**
   * `nodes.each { |n| add_offense(n, message: ...) if p(n) }`: one offense per
   * selected node, in order. The offenses are exactly those of the nodes
   * satisfying `p`.
   */
  function ReportWhere(nodes: seq<Node>, p: Node -> bool, message: Node -> string): (r: seq<Offense>)
    ensures |r| <= |nodes|
    ensures OffensesFrom(r, nodes, p, message) && OffensesFor(r, nodes, p, message)
  {
    ReportSelected(nodes, p, message);
    Report(Filter(nodes, p), message)
  }

  lemma ReportSelected(nodes: seq<Node>, p: Node -> bool, message: Node -> string)
    ensures OffensesFrom(Report(Filter(nodes, p), message), nodes, p, message)
    ensures OffensesFor(Report(Filter(nodes, p), message), nodes, p, message)
  {
    ReportSelectedFrom(nodes, p, message);
    ReportSelectedFor(nodes, p, message);
  }

  lemma ReportSelectedFrom(nodes: seq<Node>, p: Node -> bool, message: Node -> string)
    ensures OffensesFrom(Report(Filter(nodes, p), message), nodes, p, message)
  {
    FilterMembers(nodes, p);
    OffensesFromSelected(Report(Filter(nodes, p), message), Filter(nodes, p), nodes, p, message);
  }

  lemma ReportSelectedFor(nodes: seq<Node>, p: Node -> bool, message: Node -> string)
    ensures OffensesFor(Report(Filter(nodes, p), message), nodes, p, message)
  {
    FilterMembers(nodes, p);
    OffensesForSelected(Report(Filter(nodes, p), message), Filter(nodes, p), nodes, p, message);
  }

  /** Offenses reported one per node of `selected`, all of them chosen from `nodes` by `p`. */
  lemma OffensesFromSelected(r: seq<Offense>, selected: seq<Node>, nodes: seq<Node>, p: Node -> bool, message: Node -> string)
    requires |r| == |selected|
    requires forall k :: 0 <= k < |r| ==> r[k].range == selected[k].range && r[k].message == message(selected[k])
    requires forall x :: x in selected ==> x in nodes && p(x)
    ensures OffensesFrom(r, nodes, p, message)
  {
    forall i | 0 <= i < |r|
      ensures OffenseOf(r[i], nodes, p, message)
    {
      assert selected[i] in selected;
      var j :| 0 <= j < |nodes| && nodes[j] == selected[i];
      assert r[i] == Offense(nodes[j].range, message(nodes[j]));
    }
  }

  /** Offenses reported one per node of `selected`, which holds every node of `nodes` satisfying `p`. */
  lemma OffensesForSelected(r: seq<Offense>, selected: seq<Node>, nodes: seq<Node>, p: Node -> bool, message: Node -> string)
    requires |r| == |selected|
    requires forall k :: 0 <= k < |r| ==> r[k].range == selected[k].range && r[k].message == message(selected[k])
    requires forall x :: x in nodes && p(x) ==> x in selected
    ensures OffensesFor(r, nodes, p, message)
  {
    forall j | 0 <= j < |nodes| && p(nodes[j])
      ensures Offense(nodes[j].range, message(nodes[j])) in r
    {
      var k :| 0 <= k < |selected| && selected[k] == nodes[j];
      assert r[k] == Offense(nodes[j].range, message(nodes[j]));
    }
  }

  /** A single node is reported exactly when it is selected. */
  lemma ReportWhereSingle(x: Node, p: Node -> bool, message: Node -> string)
    ensures ReportWhere([x], p, message) == if p(x) then [Offense(x.range, message(x))] else []
  {
    FilterSingle(x, p);
  }
}

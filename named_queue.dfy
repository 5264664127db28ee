/**
 * `Sidekiq/NamedQueue`: a job may only name one of the configured queues in
 * `sidekiq_options queue: ...`; any other queue is reported at the queue name.
 */
module NamedQueue {
  import opened Wrappers
  import opened Syntax
  import opened Sequences
  import opened Reports
  import opened Helpers

  const MsgPrefix := "Do not add new named queues to sidekiq, they will not be processed by default. Allowed queues: "

  /** `MSG % allowed_names.join(', ')`: the prefix, the allowed names in order, and a full stop. */
  function Message(allowed: seq<string>): (r: string)
    ensures |r| == |MsgPrefix| + |Join(allowed, ", ")| + 1
    ensures r[..|MsgPrefix|] == MsgPrefix && r[|r| - 1] == '.'
    ensures r[|MsgPrefix|..|r| - 1] == Join(allowed, ", ")
  {
    MsgPrefix + Join(allowed, ", ") + "."
  }

  /** The key `"queue"` or `:queue`. */
  predicate QueueKey(k: Node) {
    (k.kind == Str || k.kind == Sym) && k.name == "queue"
  }

  /** `(pair {(str "queue") (sym :queue)} {(sym _) (str _)})`. */
  predicate QueuePair(p: Node) {
    p.kind == Pair && |p.kids| == 2 && QueueKey(p.kids[0]) && (p.kids[1].kind == Sym || p.kids[1].kind == Str)
  }

  /** `sidekiq_options` with a single hash argument, on any receiver. */
  predicate OptionsCall(n: Node) {
    n.kind == Send && n.name == "sidekiq_options" && |n.kids| == 1 && n.kids[0].kind == Hash
  }

  /** Some child of the options hash is a `queue` pair. */
  predicate HasQueuePair(kids: seq<Node>) {
    exists i :: 0 <= i < |kids| && QueuePair(kids[i])
  }

  /** `q` is the value of the first `queue` pair among `kids`. */
  predicate FirstQueueValue(kids: seq<Node>, q: Node) {
    exists i :: 0 <= i < |kids| && QueuePair(kids[i]) && kids[i].kids[1] == q &&
                forall j :: 0 <= j < i ==> !QueuePair(kids[j])
  }

  /**
   * `named_queue?`: the queue name given by the first `queue` pair of the
   * options hash; none when there is no such pair.
   */
  function QueueName(n: Node): (r: Option<Node>)
    ensures r.Some? <==> OptionsCall(n) && HasQueuePair(n.kids[0].kids)
    ensures r.Some? ==> (r.value.kind == Sym || r.value.kind == Str) && FirstQueueValue(n.kids[0].kids, r.value)
  {
    if !OptionsCall(n) then None
    else
      var kids := n.kids[0].kids;
      var p := First(kids, QueuePair);
      if p.None? then None
      else
        assert FirstQueueValue(kids, p.value.kids[1]);
        Some(p.value.kids[1])
  }

  /**
   * `on_send`: a queue name that is not among the allowed names, given inside
   * a job, is reported at the name with the list of allowed queues.
   */
  function OnSend(node: Node, ancestors: seq<Node>, allowed: seq<string>): (r: seq<Offense>)
    ensures r != [] <==> QueueName(node).Some? && QueueName(node).value.name !in allowed && InSidekiqJob(ancestors).Some?
    ensures r == [] || r == [Offense(QueueName(node).value.range, Message(allowed))]
  {
    var q := QueueName(node);
    if q.None? || InSidekiqJob(ancestors).None? || q.value.name in allowed then []
    else [Offense(q.value.range, Message(allowed))]
  }

  /** The message for the allowed names `default`, `low` and `critical`. */
  lemma MessageExample()
    ensures Message(["default", "low", "critical"]) ==
            "Do not add new named queues to sidekiq, they will not be processed by default. Allowed queues: default, low, critical."
  {
    assert ["default", "low", "critical"][..2] == ["default", "low"];
    assert ["default", "low"][..1] == ["default"];
  }

  /** `sidekiq_options queue: 'critical', retry: 3`. */
  function Options(r: Range): Node {
    var queue := Node(Pair, None, "", [Leaf(Sym, "queue", r), Leaf(Str, "critical", Range(30, 40))], None, r);
    var retry := Node(Pair, None, "", [Leaf(Sym, "retry", r), Leaf(Int, "3", r)], None, r);
    SendNode(None, "sidekiq_options", [Node(Hash, None, "", [queue, retry], None, r)], r)
  }

  lemma OptionsQueue(r: Range)
    ensures QueueName(Options(r)) == Some(Leaf(Str, "critical", Range(30, 40)))
  {
    var h := Options(r).kids[0];
    assert OptionsCall(Options(r));
    assert QueuePair(h.kids[0]);
    assert First(h.kids, QueuePair) == Some(h.kids[0]);
  }

  /** `sidekiq_options other: true, queue: 'foobar'`: the queue pair comes second. */
  function OtherFirstOptions(r: Range): Node {
    var other := Node(Pair, None, "", [Leaf(Sym, "other", r), Leaf(True, "", r)], None, r);
    var queue := Node(Pair, None, "", [Leaf(Sym, "queue", r), Leaf(Str, "foobar", Range(50, 58))], None, r);
    SendNode(None, "sidekiq_options", [Node(Hash, None, "", [other, queue], None, r)], r)
  }

  /** A pair before the queue pair does not hide it. */
  lemma OptionsQueueSecond(r: Range)
    ensures QueueName(OtherFirstOptions(r)) == Some(Leaf(Str, "foobar", Range(50, 58)))
  {
    var h := OtherFirstOptions(r).kids[0];
    assert OptionsCall(OtherFirstOptions(r));
    assert !QueuePair(h.kids[0]) && QueuePair(h.kids[1]);
    assert h.kids[1..] == [h.kids[1]];
    assert First(h.kids, QueuePair) == Some(h.kids[1]);
  }

  /** In a job, `critical` is reported exactly when it is not allowed. */
  lemma CriticalQueue(r: Range, allowed: seq<string>)
    ensures "critical" !in allowed ==>
              OnSend(Options(r), [JobBody(Options(r), r), JobClass(Options(r), r)], allowed) ==
              [Offense(Range(30, 40), Message(allowed))]
    ensures "critical" in allowed ==> OnSend(Options(r), [JobBody(Options(r), r), JobClass(Options(r), r)], allowed) == []
  {
    OptionsQueue(r);
    InJobClass(Options(r), r);
  }

  /** Outside a job nothing is reported, whatever the queue. */
  lemma OutsideJobIgnored(node: Node, allowed: seq<string>)
    ensures OnSend(node, [], allowed) == []
  {
  }
}

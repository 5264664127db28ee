/**
 * `Sidekiq/QueueInTransaction`: a job enqueued inside a `transaction` block
 * survives a rollback and may run before the commit.
 */
module QueueInTransaction {
  import opened Wrappers
  import opened Syntax
  import opened Sequences
  import opened Reports
  import opened Helpers

  const Msg := "Do not queue a job inside a transaction."

  /** `(send _ :transaction)`: a `transaction` call without arguments, on any receiver. */
  predicate TransactionCall(s: Node) {
    s.kind == Send && s.name == "transaction" && s.kids == []
  }

  /** `#sidekiq_perform?`. */
  predicate Enqueues(n: Node) {
    SidekiqPerform(n).Some?
  }

  /**
   * `perform_in_transaction?`: the block's body is itself an enqueueing call,
   * or a `begin` with one among its statements (the first is captured).
   * Calls nested deeper, or after the block, are not seen.
   */
  function PerformInTransaction(n: Node): (r: Option<Node>)
    ensures r.Some? <==> n.kind == Block && n.recv.Some? && TransactionCall(n.recv.value) && n.body.Some? &&
                         (Enqueues(n.body.value) ||
                          (n.body.value.kind == Begin && exists i :: 0 <= i < |n.body.value.kids| && Enqueues(n.body.value.kids[i])))
    ensures r.Some? ==> Enqueues(r.value) && (r.value == n.body.value || r.value in n.body.value.kids)
  {
    if n.kind == Block && n.recv.Some? && TransactionCall(n.recv.value) && n.body.Some? then
      var body := n.body.value;
      if Enqueues(body) then Some(body)
      else if body.kind == Begin then First(body.kids, Enqueues)
      else None
    else None
  }

  /** `on_block`: the captured call is reported, and nothing else. */
  function OnBlock(n: Node): (r: seq<Offense>)
    ensures r != [] <==> PerformInTransaction(n).Some?
    ensures r != [] ==> r == [Offense(PerformInTransaction(n).value.range, Msg)]
  {
    match PerformInTransaction(n)
    case None => []
    case Some(send) => [Offense(send.range, Msg)]
  }

  /** `record.save`. */
  function Save(r: Range): Node {
    SendNode(Some(Leaf(Lvar, "record", r)), "save", [], r)
  }

  /** `MyJob.perform_async(record.id)`. */
  function Enqueue(r: Range): Node {
    SendNode(Some(Leaf(Const, "MyJob", r)), "perform_async", [SendNode(Some(Leaf(Lvar, "record", r)), "id", [], r)], r)
  }

  /** `ActiveRecord::Base.transaction do <body> end`. */
  function Transaction(args: seq<Node>, body: Node, r: Range): Node {
    var base := Node(Const, Some(Leaf(Const, "ActiveRecord", r)), "Base", [], None, r);
    Node(Block, Some(SendNode(Some(base), "transaction", args, r)), "", [Node(Args, None, "", [], None, r)], Some(body), r)
  }

  /** Saving, then enqueueing, inside the block: the enqueueing call is reported. */
  lemma EnqueueInBlockReported(r: Range, p: Range)
    ensures OnBlock(Transaction([], Node(Begin, None, "", [Save(r), Enqueue(p)], None, r), r)) == [Offense(p, Msg)]
  {
    var body := Node(Begin, None, "", [Save(r), Enqueue(p)], None, r);
    assert !Enqueues(Save(r)) && Enqueues(Enqueue(p));
    FirstSecond(Save(r), Enqueue(p), Enqueues);
    BeginBodyReported(Transaction([], body, r));
  }

  /** A `begin` body in a `transaction` block: its first enqueueing statement is reported. */
  lemma BeginBodyReported(t: Node)
    requires t.kind == Block && t.recv.Some? && TransactionCall(t.recv.value) && t.body.Some?
    requires t.body.value.kind == Begin && First(t.body.value.kids, Enqueues).Some?
    ensures OnBlock(t) == [Offense(First(t.body.value.kids, Enqueues).value.range, Msg)]
  {
    assert !Enqueues(t.body.value);
    assert PerformInTransaction(t) == First(t.body.value.kids, Enqueues);
  }

  /**
   * Nothing is reported when the block only saves (the job is enqueued after
   * it), or when `transaction` is called with arguments.
   */
  lemma OtherBlocksIgnored(r: Range)
    ensures OnBlock(Transaction([], Save(r), r)) == []
    ensures OnBlock(Transaction([Leaf(True, "true", r)], Enqueue(r), r)) == []
  {
  }
}

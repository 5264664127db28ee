/**
 * `Sidekiq/Sleep`: a job should schedule later work instead of calling
 * `sleep` or `Kernel.sleep` while it runs.
 */
module Sleep {
  import opened Wrappers
  import opened Syntax
  import opened Reports
  import opened Helpers

  const Msg := "Do not call `sleep` inside a sidekiq job, schedule a job instead."

  /** `sleep?`, the NodePattern `(send {(const _ :Kernel) nil?} :sleep ...)`. */
  predicate SleepCall(n: Node) {
    n.kind == Send && n.name == "sleep" && (n.recv.None? || IsConstNamed(n.recv.value, "Kernel"))
  }

  /**
   * `on_send`: the call is reported, at its own range, exactly when it is a
   * `sleep` and some enclosing class or block defines a job. `ancestors` are
   * the enclosing nodes from the parent outwards.
   */
  function OnSend(node: Node, ancestors: seq<Node>): (r: seq<Offense>)
    ensures r != [] <==> SleepCall(node) && exists i :: 0 <= i < |ancestors| && SidekiqJob(ancestors[i])
    ensures r == [] || r == [Offense(node.range, Msg)]
  {
    if !SleepCall(node) then []
    else if InSidekiqJob(ancestors).None? then []
    else [Offense(node.range, Msg)]
  }

  /** A `sleep` nested anywhere inside a job (here, in a method of an outer job) is reported. */
  lemma NestedSleepReported(node: Node, ancestors: seq<Node>, job: Node)
    requires SleepCall(node) && job in ancestors && SidekiqJob(job)
    ensures OnSend(node, ancestors) == [Offense(node.range, Msg)]
  {
    var i :| 0 <= i < |ancestors| && ancestors[i] == job;
  }

  /** `sleep(5.minutes)` and `Kernel.sleep(5)` in a job class are reported. */
  lemma SleepInJobReported(r: Range)
    ensures var call := SendNode(None, "sleep", [Leaf(Int, "5", r)], r);
            OnSend(call, [JobBody(call, r), JobClass(call, r)]) == [Offense(r, Msg)]
    ensures var call := SendNode(Some(Leaf(Const, "Kernel", r)), "sleep", [Leaf(Int, "5", r)], r);
            OnSend(call, [JobBody(call, r), JobClass(call, r)]) == [Offense(r, Msg)]
  {
    var call := SendNode(None, "sleep", [Leaf(Int, "5", r)], r);
    SleepInJobClass(call, r);
    var kernel := SendNode(Some(Leaf(Const, "Kernel", r)), "sleep", [Leaf(Int, "5", r)], r);
    assert IsConstNamed(kernel.recv.value, "Kernel");
    SleepInJobClass(kernel, r);
  }

  /** A `sleep` directly in the body of a job class is reported. */
  lemma SleepInJobClass(call: Node, r: Range)
    requires SleepCall(call)
    ensures OnSend(call, [JobBody(call, r), JobClass(call, r)]) == [Offense(call.range, Msg)]
  {
    InJobClass(call, r);
  }

  /** `foo.sleep` in a job, and `sleep` outside any job, are not reported. */
  lemma OtherSleepsIgnored(r: Range)
    ensures var call := SendNode(Some(Leaf(Lvar, "foo", r)), "sleep", [], r);
            OnSend(call, [JobBody(call, r), JobClass(call, r)]) == []
    ensures OnSend(SendNode(None, "sleep", [], r), [Node(Module, Some(Leaf(Const, "Foo", r)), "", [], None, r)]) == []
  {
    var m := Node(Module, Some(Leaf(Const, "Foo", r)), "", [], None, r);
    assert !SidekiqJob(m);
  }
}

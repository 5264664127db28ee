/**
 * `Sidekiq/InlinePerform`: `perform` called on an instance runs the job in
 * the current process instead of enqueueing it.
 */
module InlinePerform {
  import opened Wrappers
  import opened Syntax
  import opened Reports

  const Msg := "Do not run a Sidekiq job inline."

  /**
   * `inline_perform?`, the NodePattern `(send $_ :perform ...)`: the captured
   * receiver of a `perform` call. A call without a receiver captures `nil`,
   * which `on_send` treats like no match.
   */
  function PerformReceiver(n: Node): (r: Option<Node>)
    ensures r.Some? <==> n.kind == Send && n.name == "perform" && n.recv.Some?
    ensures r.Some? ==> r == n.recv
  {
    if n.kind == Send && n.name == "perform" then n.recv else None
  }

  /** `on_send`: a `perform` call on anything but a constant is reported at the call. */
  function OnSend(n: Node): (r: seq<Offense>)
    ensures r != [] <==> n.kind == Send && n.name == "perform" && n.recv.Some? && n.recv.value.kind != Const
    ensures r == [] || r == [Offense(n.range, Msg)]
  {
    match PerformReceiver(n)
    case None => []
    case Some(receiver) => if receiver.kind == Const then [] else [Offense(n.range, Msg)]
  }

  /** `MyJob.new.perform` and `job.perform(1)` are reported, whatever the arguments. */
  lemma InstancePerformReported(r: Range)
    ensures OnSend(SendNode(Some(SendNode(Some(Leaf(Const, "MyJob", r)), "new", [], r)), "perform", [], r)) == [Offense(r, Msg)]
    ensures OnSend(SendNode(Some(Leaf(Lvar, "job", r)), "perform", [Leaf(Int, "1", r)], r)) == [Offense(r, Msg)]
  {
  }

  /** `MyJob.perform`, a bare `perform`, and `job.perform_async` are not reported. */
  lemma OthersIgnored(r: Range)
    ensures OnSend(SendNode(Some(Leaf(Const, "MyJob", r)), "perform", [], r)) == []
    ensures OnSend(SendNode(None, "perform", [], r)) == []
    ensures OnSend(SendNode(Some(Leaf(Lvar, "job", r)), "perform_async", [], r)) == []
  {
  }
}

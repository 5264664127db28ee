/**
 * `Sidekiq/DateTimeArgument`: dates, times and durations passed to a job
 * cannot be serialized. An argument whose outermost call is an allowed
 * conversion (`to_i`, `to_s`, or a configured method) is approved instead,
 * and nothing within an approved range is reported afterwards.
 */
module DateTimeArgument {
  import opened Wrappers
  import opened Syntax
  import opened Sequences
  import opened Reports
  import opened Helpers

  const DurationMethods: set<string> :=
    {"second", "seconds", "minute", "minutes", "hour", "hours", "day", "days",
     "week", "weeks", "fortnight", "fortnights"}

  const DurationToTimeMethods: set<string> := {"from_now", "since", "after", "ago", "until", "before"}

  const DurationMsg := "Durations are not Sidekiq-serializable; use the integer instead."
  const Msg := "Date/Time objects are not Sidekiq-serializable; convert to integers or strings instead."

  /**
   * `duration?`: `1.hour` (a numeric literal, or what `rational_literal?`
   * accepts, receiving a duration method without arguments), or any call on
   * `ActiveSupport::Duration`. `rationalLiteral` stands for the mixin's matcher.
   */
  predicate Duration(n: Node, rationalLiteral: Node -> bool) {
    n.kind == Send && n.recv.Some? &&
    (((n.recv.value.kind in {Int, Float, Rational} || rationalLiteral(n.recv.value)) &&
      n.name in DurationMethods && n.kids == []) ||
     (IsConstNamed(n.recv.value, "Duration") && HasScopeNamed(n.recv.value, "ActiveSupport")))
  }

  /** `Date`, `DateTime` or `Time` under any scope, or `ActiveSupport::TimeWithZone`. */
  predicate DateTimeConst(c: Node) {
    (c.kind == Const && c.name in {"Date", "DateTime", "Time"}) ||
    (IsConstNamed(c, "TimeWithZone") && HasScopeNamed(c, "ActiveSupport"))
  }

  /** `date_time_send?`: a call whose receiver is, or contains, a date/time constant. */
  predicate DateTimeSend(n: Node) {
    n.kind == Send && n.recv.Some? && Somewhere(n.recv.value, DateTimeConst)
  }

  /** `1.hour.ago`: a duration-to-time method, without arguments, on something containing a duration. */
  predicate DurationToTime(n: Node, rationalLiteral: Node -> bool) {
    n.kind == Send && n.recv.Some? && Somewhere(n.recv.value, x => Duration(x, rationalLiteral)) &&
    n.name in DurationToTimeMethods && n.kids == []
  }

  /** `date_time_arg?`. */
  predicate DateTimeArg(n: Node, rationalLiteral: Node -> bool) {
    Duration(n, rationalLiteral) || DateTimeSend(n) || DurationToTime(n, rationalLiteral)
  }

  /** `allowed_methods`: the configured methods, and always `to_i` and `to_s`. */
  function AllowedMethods(config: seq<string>): (r: seq<string>)
    ensures forall m :: m in r <==> m in config || m == "to_i" || m == "to_s"
  {
    config + ["to_i", "to_s"]
  }

  /** `message`: durations get their own message. */
  function Message(n: Node, rationalLiteral: Node -> bool): (r: string)
    ensures r == DurationMsg <==> Duration(n, rationalLiteral)
    ensures r == Msg <==> !Duration(n, rationalLiteral)
  {
    if Duration(n, rationalLiteral) then DurationMsg else Msg
  }

  /** The offenses for the given nodes, in order, each at its node with its message. */
  function Offenses(nodes: seq<Node>, rationalLiteral: Node -> bool): (r: seq<Offense>)
    ensures |r| == |nodes|
    decreases |nodes|
  {
    if nodes == [] then []
    else Offenses(nodes[..|nodes| - 1], rationalLiteral) + [Offense(nodes[|nodes| - 1].range, Message(nodes[|nodes| - 1], rationalLiteral))]
  }

  /** Each node gets one offense, at its position, at its range and with its message. */
  lemma {:induction false} OffensesEach(nodes: seq<Node>, rationalLiteral: Node -> bool)
    ensures forall i :: 0 <= i < |nodes| ==>
              Offenses(nodes, rationalLiteral)[i] == Offense(nodes[i].range, Message(nodes[i], rationalLiteral))
    decreases |nodes|
  {
    if nodes != [] {
      var init := nodes[..|nodes| - 1];
      OffensesEach(init, rationalLiteral);
      assert forall i :: 0 <= i < |init| ==> nodes[i] == init[i];
    }
  }

  lemma OffensesAppend(nodes: seq<Node>, a: Node, rationalLiteral: Node -> bool)
    ensures Offenses(nodes + [a], rationalLiteral) == Offenses(nodes, rationalLiteral) + [Offense(a.range, Message(a, rationalLiteral))]
  {
    assert (nodes + [a])[..|nodes|] == nodes;
  }

  /** What `on_send` has done after some arguments: the nodes it reported, and the approved ranges. */
  datatype ScanState = ScanState(flagged: seq<Node>, ranges: seq<Range>)

  /**
   * The walk `on_send` makes over the arguments, starting from the ranges
   * approved so far: a date/time argument outside every approved range is
   * approved when its method is allowed, and reported otherwise.
   */
  function Scan(args: seq<Node>, allowed: seq<string>, rationalLiteral: Node -> bool, ranges: seq<Range>): ScanState
    decreases |args|
  {
    if args == [] then ScanState([], ranges)
    else Step(Scan(args[..|args| - 1], allowed, rationalLiteral, ranges), args[|args| - 1], allowed, rationalLiteral)
  }

  /** One iteration of the walk, on the argument `a`. */
  function Step(s: ScanState, a: Node, allowed: seq<string>, rationalLiteral: Node -> bool): ScanState {
    if !DateTimeArg(a, rationalLiteral) || Covered(s.ranges, a.range) then s
    else if a.name in allowed then s.(ranges := s.ranges + [a.range])
    else s.(flagged := s.flagged + [a])
  }

  lemma ScanStep(args: seq<Node>, i: nat, allowed: seq<string>, rationalLiteral: Node -> bool, ranges: seq<Range>)
    requires i < |args|
    ensures Scan(args[..i + 1], allowed, rationalLiteral, ranges) ==
            Step(Scan(args[..i], allowed, rationalLiteral, ranges), args[i], allowed, rationalLiteral)
  {
    assert args[..i + 1][..i] == args[..i];
  }

  /**
   * Every reported node is one of the arguments, a date/time argument whose
   * method is not allowed, and outside every range approved before the walk.
   */
  lemma {:induction false} ScanSound(args: seq<Node>, allowed: seq<string>, rationalLiteral: Node -> bool, ranges: seq<Range>)
    ensures var s := Scan(args, allowed, rationalLiteral, ranges);
            forall x :: x in s.flagged ==>
              x in args && DateTimeArg(x, rationalLiteral) && x.name !in allowed && !Covered(ranges, x.range)
    decreases |args|
  {
    if args != [] {
      var init := args[..|args| - 1];
      ScanSound(init, allowed, rationalLiteral, ranges);
      var s0 := Scan(init, allowed, rationalLiteral, ranges);
      var a := args[|args| - 1];
      assert forall x :: x in init ==> x in args;
      ScanKeepsRanges(init, allowed, rationalLiteral, ranges);
      CoveredPrefix(ranges, s0.ranges, a.range);
    }
  }

  /**
   * The approved ranges only grow: the walk appends to the ranges it starts
   * with, and each range it adds is that of an argument whose allowed method
   * made it approved.
   */
  lemma {:induction false} ScanKeepsRanges(args: seq<Node>, allowed: seq<string>, rationalLiteral: Node -> bool, ranges: seq<Range>)
    ensures var s := Scan(args, allowed, rationalLiteral, ranges);
            |ranges| <= |s.ranges| && s.ranges[..|ranges|] == ranges &&
            forall j :: |ranges| <= j < |s.ranges| ==>
              exists a :: a in args && a.range == s.ranges[j] && DateTimeArg(a, rationalLiteral) && a.name in allowed
    decreases |args|
  {
    if args != [] {
      var init := args[..|args| - 1];
      ScanKeepsRanges(init, allowed, rationalLiteral, ranges);
      var s0 := Scan(init, allowed, rationalLiteral, ranges);
      var s := Scan(args, allowed, rationalLiteral, ranges);
      var a := args[|args| - 1];
      assert s == Step(s0, a, allowed, rationalLiteral);
      var grew := DateTimeArg(a, rationalLiteral) && !Covered(s0.ranges, a.range) && a.name in allowed;
      assert s.ranges == if grew then s0.ranges + [a.range] else s0.ranges;
      assert s.ranges[..|s0.ranges|] == s0.ranges;
      assert s.ranges[..|ranges|] == s0.ranges[..|ranges|];
      forall j | |ranges| <= j < |s.ranges|
        ensures exists b :: b in args && b.range == s.ranges[j] && DateTimeArg(b, rationalLiteral) && b.name in allowed
      {
        if j < |s0.ranges| {
          assert s.ranges[j] == s0.ranges[j];
          var b :| b in init && b.range == s0.ranges[j] && DateTimeArg(b, rationalLiteral) && b.name in allowed;
          assert b in args;
        } else {
          assert grew;
          assert s.ranges == s0.ranges + [a.range];
          assert j == |s0.ranges| && s.ranges[j] == a.range;
          assert a in args;
        }
      }
    }
  }

  /** The ranges approved after some of the arguments are kept to the end, and so are the nodes reported. */
  lemma {:induction false} ScanPrefix(args: seq<Node>, k: nat, allowed: seq<string>, rationalLiteral: Node -> bool, ranges: seq<Range>)
    requires k <= |args|
    ensures var early := Scan(args[..k], allowed, rationalLiteral, ranges);
            var s := Scan(args, allowed, rationalLiteral, ranges);
            |early.ranges| <= |s.ranges| && s.ranges[..|early.ranges|] == early.ranges &&
            |early.flagged| <= |s.flagged| && s.flagged[..|early.flagged|] == early.flagged
    decreases |args|
  {
    if k < |args| {
      var init := args[..|args| - 1];
      assert init[..k] == args[..k];
      ScanPrefix(init, k, allowed, rationalLiteral, ranges);
    } else {
      assert args[..k] == args;
    }
  }

  /**
   * Every date/time argument whose method is not allowed and which lies
   * outside every range approved at the end of the walk is reported.
   */
  lemma ScanComplete(args: seq<Node>, i: nat, allowed: seq<string>, rationalLiteral: Node -> bool, ranges: seq<Range>)
    requires i < |args| && DateTimeArg(args[i], rationalLiteral) && args[i].name !in allowed
    requires !Covered(Scan(args, allowed, rationalLiteral, ranges).ranges, args[i].range)
    ensures args[i] in Scan(args, allowed, rationalLiteral, ranges).flagged
  {
    var s := Scan(args, allowed, rationalLiteral, ranges);
    var before := Scan(args[..i], allowed, rationalLiteral, ranges);
    var after := Scan(args[..i + 1], allowed, rationalLiteral, ranges);
    ScanStep(args, i, allowed, rationalLiteral, ranges);
    ScanPrefix(args, i, allowed, rationalLiteral, ranges);
    ScanPrefix(args, i + 1, allowed, rationalLiteral, ranges);
    CoveredPrefix(before.ranges, s.ranges, args[i].range);
    assert after.flagged[|after.flagged| - 1] == args[i];
    assert s.flagged[|after.flagged| - 1] == args[i];
  }

  /**
   * Every date/time argument whose method is allowed, outside the ranges
   * approved before it, has its range approved, and is not reported.
   */
  lemma ScanApproves(args: seq<Node>, i: nat, allowed: seq<string>, rationalLiteral: Node -> bool, ranges: seq<Range>)
    requires i < |args| && DateTimeArg(args[i], rationalLiteral) && args[i].name in allowed
    requires !Covered(Scan(args[..i], allowed, rationalLiteral, ranges).ranges, args[i].range)
    ensures args[i].range in Scan(args, allowed, rationalLiteral, ranges).ranges
    ensures Covered(Scan(args, allowed, rationalLiteral, ranges).ranges, args[i].range)
  {
    var s := Scan(args, allowed, rationalLiteral, ranges);
    var after := Scan(args[..i + 1], allowed, rationalLiteral, ranges);
    ScanStep(args, i, allowed, rationalLiteral, ranges);
    ScanPrefix(args, i + 1, allowed, rationalLiteral, ranges);
    assert s.ranges[|after.ranges| - 1] == args[i].range;
    assert Within(args[i].range, s.ranges[|after.ranges| - 1]);
  }

  /** `to_i` and `to_s` conversions are never reported, whatever the configuration. */
  lemma ConversionsNeverReported(args: seq<Node>, config: seq<string>, rationalLiteral: Node -> bool, ranges: seq<Range>)
    ensures forall x :: x in Scan(args, AllowedMethods(config), rationalLiteral, ranges).flagged ==>
              x.name != "to_i" && x.name != "to_s"
  {
    ScanSound(args, AllowedMethods(config), rationalLiteral, ranges);
  }

  /** A cop instance: its configuration, the ranges it has approved in the file, and its offenses. */
  class Cop {
    const allowedMethodsConfig: seq<string>
    const rationalLiteral: Node -> bool
    const approvals: ApprovedRanges
    var offenses: seq<Offense>

    constructor(config: seq<string>, rationalLiteral: Node -> bool)
      ensures allowedMethodsConfig == config && this.rationalLiteral == rationalLiteral
      ensures fresh(approvals) && approvals.ranges == [] && offenses == []
    {
      allowedMethodsConfig := config;
      this.rationalLiteral := rationalLiteral;
      approvals := new ApprovedRanges();
      offenses := [];
    }

    /** `on_send`: inspect the arguments of a `perform_*` call. */
    method OnSend(node: Node)
      requires PerformArity(node)
      modifies this, approvals
      ensures var s := Scan(SidekiqArguments(node), AllowedMethods(allowedMethodsConfig), rationalLiteral, old(approvals.ranges));
              approvals.ranges == s.ranges && offenses == old(offenses) + Offenses(s.flagged, rationalLiteral)
    {
      var args := SidekiqArguments(node);
      var allowed := AllowedMethods(allowedMethodsConfig);
      ghost var ranges0 := approvals.ranges;
      ghost var offenses0 := offenses;
      for i := 0 to |args|
        invariant approvals.ranges == Scan(args[..i], allowed, rationalLiteral, ranges0).ranges
        invariant offenses == offenses0 + Offenses(Scan(args[..i], allowed, rationalLiteral, ranges0).flagged, rationalLiteral)
      {
        ScanStep(args, i, allowed, rationalLiteral, ranges0);
        Visit(args[i], allowed, Scan(args[..i], allowed, rationalLiteral, ranges0), offenses0);
      }
      assert args[..|args|] == args;
    }

    /** The body of the `on_send` loop, for one argument: one `Step` of the walk. */
    method Visit(arg: Node, allowed: seq<string>, ghost s: ScanState, ghost offenses0: seq<Offense>)
      requires approvals.ranges == s.ranges && offenses == offenses0 + Offenses(s.flagged, rationalLiteral)
      modifies this, approvals
      ensures approvals.ranges == Step(s, arg, allowed, rationalLiteral).ranges
      ensures offenses == offenses0 + Offenses(Step(s, arg, allowed, rationalLiteral).flagged, rationalLiteral)
    {
      if DateTimeArg(arg, rationalLiteral) {
        var approved := approvals.IsApproved(arg);
        if !approved {
          if arg.name in allowed {
            approvals.Approve(arg);
          } else {
            OffensesAppend(s.flagged, arg, rationalLiteral);
            offenses := offenses + [Offense(arg.range, Message(arg, rationalLiteral))];
          }
        }
      }
    }
  }

  /** `Time.now`, as an argument starting at offset `b`. */
  function TimeNow(b: nat): Node {
    SendNode(Some(Leaf(Const, "Time", Range(b, b + 4))), "now", [], Range(b, b + 8))
  }

  /** `1.hour`, as an argument starting at offset `b`. */
  function OneHour(b: nat): Node {
    SendNode(Some(Leaf(Int, "1", Range(b, b + 1))), "hour", [], Range(b, b + 6))
  }

  /** A single date/time argument is approved when its method is allowed, and reported otherwise. */
  lemma ScanSingle(n: Node, allowed: seq<string>, rationalLiteral: Node -> bool)
    requires DateTimeArg(n, rationalLiteral)
    ensures n.name in allowed ==> Scan([n], allowed, rationalLiteral, []) == ScanState([], [n.range])
    ensures n.name !in allowed ==> Scan([n], allowed, rationalLiteral, []) == ScanState([n], [])
  {
    assert [n][..0] == [];
    CoveredEmpty(n.range);
  }

  /** `Time.now` holds the constant `Time`: it and every call on it are date/time calls. */
  lemma TimeNowSend(b: nat, name: string, r: Range)
    ensures DateTimeSend(TimeNow(b)) && DateTimeSend(SendNode(Some(TimeNow(b)), name, [], r))
  {
    var t := TimeNow(b);
    var time := t.recv.value;
    PreorderLeaf(time);
    assert DateTimeConst(time);
    assert Preorder(t) == [t] + Preorder(time) + PreorderAll([]) + PreorderOpt(None);
    assert Preorder(t)[1] == time;
  }

  /** `Time.now` is reported with the date/time message. */
  lemma TimeNowReported(b: nat, rationalLiteral: Node -> bool)
    ensures DateTimeArg(TimeNow(b), rationalLiteral)
    ensures Message(TimeNow(b), rationalLiteral) == Msg
    ensures Scan([TimeNow(b)], AllowedMethods([]), rationalLiteral, []) == ScanState([TimeNow(b)], [])
  {
    TimeNowSend(b, "", Range(b, b));
    NowNotDuration();
    assert !Duration(TimeNow(b), rationalLiteral);
    assert "now" !in AllowedMethods([]);
    ScanSingle(TimeNow(b), AllowedMethods([]), rationalLiteral);
  }

  lemma NowNotDuration()
    ensures "now" !in DurationMethods
  {
  }

  /** `Time.now.to_i` is approved and not reported; `Time.now` inside it is then approved as well. */
  lemma ConversionApproved(b: nat, rationalLiteral: Node -> bool)
    ensures Scan([SendNode(Some(TimeNow(b)), "to_i", [], Range(b, b + 13))], AllowedMethods([]), rationalLiteral, []) ==
            ScanState([], [Range(b, b + 13)])
    ensures Covered([Range(b, b + 13)], TimeNow(b).range)
  {
    var n := SendNode(Some(TimeNow(b)), "to_i", [], Range(b, b + 13));
    TimeNowSend(b, "to_i", Range(b, b + 13));
    ScanSingle(n, AllowedMethods([]), rationalLiteral);
    assert Within(TimeNow(b).range, [Range(b, b + 13)][0]);
  }

  /** `1.hour` is a duration and gets the duration message. */
  lemma OneHourIsDuration(b: nat, rationalLiteral: Node -> bool)
    ensures DateTimeArg(OneHour(b), rationalLiteral)
    ensures Message(OneHour(b), rationalLiteral) == DurationMsg
  {
  }

  /** `ActiveSupport::Duration.new` is a duration too, whatever its arguments. */
  lemma DurationClassIsDuration(rationalLiteral: Node -> bool, args: seq<Node>, r: Range)
    ensures Message(SendNode(Some(Node(Const, Some(Leaf(Const, "ActiveSupport", r)), "Duration", [], None, r)), "new", args, r),
                    rationalLiteral) == DurationMsg
  {
  }

  /** `1.hour.ago` is a time, not a duration: it gets the date/time message. */
  lemma HourAgoIsTime(b: nat, rationalLiteral: Node -> bool)
    ensures DateTimeArg(SendNode(Some(OneHour(b)), "ago", [], Range(b, b + 10)), rationalLiteral)
    ensures Message(SendNode(Some(OneHour(b)), "ago", [], Range(b, b + 10)), rationalLiteral) == Msg
  {
    var n := SendNode(Some(OneHour(b)), "ago", [], Range(b, b + 10));
    assert Preorder(OneHour(b))[0] == OneHour(b);
    assert DurationToTime(n, rationalLiteral);
  }

  /** With `AllowedMethods: [foo, bar]`, `Time.now.bar` is approved. */
  lemma ConfiguredMethodApproved(b: nat, rationalLiteral: Node -> bool)
    ensures Scan([SendNode(Some(TimeNow(b)), "bar", [], Range(b, b + 12))], AllowedMethods(["foo", "bar"]), rationalLiteral, []) ==
            ScanState([], [Range(b, b + 12)])
  {
    var n := SendNode(Some(TimeNow(b)), "bar", [], Range(b, b + 12));
    TimeNowSend(b, "bar", Range(b, b + 12));
    assert "bar" in AllowedMethods(["foo", "bar"]);
    ScanSingle(n, AllowedMethods(["foo", "bar"]), rationalLiteral);
  }
}

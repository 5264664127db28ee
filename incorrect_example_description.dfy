/**
 * `InternalAffairs/IncorrectExampleDescription`: an RSpec example whose only
 * statement is `expect_offense` or `expect_no_offenses` must be described
 * by one of the configured descriptions for that method (strict mode), or
 * start with the configured prefix (non-strict mode). The correction writes
 * the first configured description as the example's description.
 */
module IncorrectExampleDescription {
  import opened Wrappers
  import opened Syntax
  import opened Reports

  const PositivePrefix := "registers"
  const NegativePrefix := "does not register"
  const PositiveDescriptions := ["registers an offense", "registers an offense and corrects"]
  const NegativeDescriptions := ["does not register an offense"]
  const MsgPrefix := "Use an appropriate example description for "

  /** The cop's options: `Strict`, the two prefixes and the two description lists. */
  datatype Config = Config(strict: bool, positivePrefix: string, negativePrefix: string,
                           positiveDescriptions: seq<string>, negativeDescriptions: seq<string>)

  /** The values `cop_config.fetch` falls back to. */
  const Defaults := Config(true, PositivePrefix, NegativePrefix, PositiveDescriptions, NegativeDescriptions)

  /** The captures of `rspec_example?`: the `it` call and the expectation method. */
  datatype Example = Example(it: Node, expectation: string)

  /** `(send nil? {:expect_offense :expect_no_offenses} ...)`. */
  predicate Expectation(b: Node) {
    b.kind == Send && b.recv.None? && (b.name == "expect_offense" || b.name == "expect_no_offenses")
  }

  /** `(send nil? :it ...)`. */
  predicate ItCall(s: Node) {
    s.kind == Send && s.recv.None? && s.name == "it"
  }

  /**
   * `rspec_example?`: a block on a receiverless `it` whose body is a single
   * receiverless `expect_offense` or `expect_no_offenses` call.
   */
  function RspecExample(n: Node): (r: Option<Example>)
    ensures r.Some? <==> n.kind == Block && n.recv.Some? && ItCall(n.recv.value) && n.body.Some? && Expectation(n.body.value)
    ensures r.Some? ==> r.value.it == n.recv.value && r.value.expectation == n.body.value.name && Expectation(n.body.value)
  {
    if n.kind == Block && n.recv.Some? && ItCall(n.recv.value) && n.body.Some? && Expectation(n.body.value) then
      Some(Example(n.recv.value, n.body.value.name))
    else None
  }

  /** `correct_descriptions`: the configured list for the expectation method. */
  function CorrectDescriptions(expectation: string, config: Config): (r: seq<string>)
    ensures expectation == "expect_offense" ==> r == config.positiveDescriptions
    ensures expectation != "expect_offense" ==> r == config.negativeDescriptions
  {
    if expectation == "expect_offense" then config.positiveDescriptions else config.negativeDescriptions
  }

  /** `correct_description_prefix`: the configured prefix for the expectation method. */
  function CorrectPrefix(expectation: string, config: Config): (r: string)
    ensures expectation == "expect_offense" ==> r == config.positivePrefix
    ensures expectation != "expect_offense" ==> r == config.negativePrefix
  {
    if expectation == "expect_offense" then config.positivePrefix else config.negativePrefix
  }

  /** `example_description_node`: the first argument of `it`, when it is a string. */
  function DescriptionNode(it: Node): (r: Option<Node>)
    ensures r.Some? <==> |it.kids| > 0 && it.kids[0].kind == Str
    ensures r.Some? ==> r.value == it.kids[0]
  {
    if |it.kids| > 0 && it.kids[0].kind == Str then Some(it.kids[0]) else None
  }

  /** `example_description`: that string's value, or `nil`. */
  function Description(it: Node): (r: Option<string>)
    ensures r.Some? <==> DescriptionNode(it).Some?
    ensures r.Some? ==> r.value == it.kids[0].name
  {
    match DescriptionNode(it)
    case None => None
    case Some(d) => Some(d.name)
  }

  /**
   * `correct_description?`: one of the descriptions (strict), or starting with
   * the prefix. In non-strict mode a missing description would receive
   * `start_with?` and raise, so a description is required there.
   */
  function CorrectDescription(desc: Option<string>, expectation: string, config: Config): (r: bool)
    requires !config.strict ==> desc.Some?
    ensures r ==> desc.Some?
    ensures config.strict ==> (r <==> desc.Some? && desc.value in CorrectDescriptions(expectation, config))
    ensures !config.strict ==> (r <==> CorrectPrefix(expectation, config) <= desc.value)
  {
    if config.strict then desc.Some? && desc.value in CorrectDescriptions(expectation, config)
    else CorrectPrefix(expectation, config) <= desc.value
  }

  /** `loc.selector` of a receiverless send: its method name, at the start of the call. */
  function Selector(it: Node): (r: Range)
    ensures r.begin == it.range.begin && r.end == it.range.begin + |it.name|
  {
    Range(it.range.begin, it.range.begin + |it.name|)
  }

  /** `offense_location`: the description string when there is one, otherwise the `it` selector. */
  function OffenseLocation(it: Node): (r: Range)
    ensures Description(it).Some? ==> r == it.kids[0].range
    ensures Description(it).None? ==> r == Selector(it)
  {
    if Description(it).Some? then it.kids[0].range else Selector(it)
  }

  /** `MSG % method`. */
  function Message(expectation: string): (r: string)
    ensures |r| == |MsgPrefix| + |expectation| + 1
    ensures r[..|MsgPrefix|] == MsgPrefix && r[|MsgPrefix|..|r| - 1] == expectation && r[|r| - 1] == '.'
  {
    MsgPrefix + expectation + "."
  }

  /** `on_block`: an example whose description is not correct is reported once, at `offense_location`. */
  function OnBlock(n: Node, config: Config): (r: seq<Offense>)
    requires !config.strict && RspecExample(n).Some? ==> Description(RspecExample(n).value.it).Some?
    ensures r != [] <==> RspecExample(n).Some? &&
                         !CorrectDescription(Description(RspecExample(n).value.it), RspecExample(n).value.expectation, config)
    ensures r != [] ==> var e := RspecExample(n).value;
                        r == [Offense(OffenseLocation(e.it), Message(e.expectation))]
  {
    match RspecExample(n)
    case None => []
    case Some(e) =>
      if CorrectDescription(Description(e.it), e.expectation, config) then []
      else [Offense(OffenseLocation(e.it), Message(e.expectation))]
  }

  /**
   * `autocorrect`: the string literal of the first correct description
   * replaces the description string, or is inserted after `it` (followed by
   * a comma when `it` has other arguments). `toStringLiteral` stands for the
   * helper of that name.
   */
  function Autocorrect(e: Example, config: Config, toStringLiteral: string -> string): (edits: seq<Edit>)
    requires |CorrectDescriptions(e.expectation, config)| > 0
    ensures DescriptionNode(e.it).Some? ==> edits == [Edit(e.it.kids[0].range, toStringLiteral(CorrectDescriptions(e.expectation, config)[0]))]
    ensures DescriptionNode(e.it).None? ==> |edits| == (if |e.it.kids| > 0 then 2 else 1)
  {
    var desc := toStringLiteral(CorrectDescriptions(e.expectation, config)[0]);
    match DescriptionNode(e.it)
    case Some(s) => [Edit(s.range, desc)]
    case None =>
      [InsertAfter(Selector(e.it), " " + desc)] + (if |e.it.kids| > 0 then [InsertAfter(Selector(e.it), ",")] else [])
  }

  /** With a description string, the correction rewrites exactly that string. */
  lemma AutocorrectReplacesDescription(src: string, e: Example, config: Config, toStringLiteral: string -> string)
    requires |CorrectDescriptions(e.expectation, config)| > 0 && DescriptionNode(e.it).Some?
    requires e.it.kids[0].range.begin <= e.it.kids[0].range.end <= |src|
    ensures var s := e.it.kids[0].range;
            Applicable(src, Autocorrect(e, config, toStringLiteral)) &&
            Apply(src, Autocorrect(e, config, toStringLiteral)) ==
            src[..s.begin] + toStringLiteral(CorrectDescriptions(e.expectation, config)[0]) + src[s.end..]
  {
    var edits := Autocorrect(e, config, toStringLiteral);
    assert edits[1..] == [];
    assert ApplyFrom(src, edits, 0) == src[0..edits[0].range.begin] + edits[0].text + ApplyFrom(src, [], edits[0].range.end);
  }

  /**
   * Without one, the literal lands right after `it`, then the comma: the two
   * insertions at the same offset keep their order.
   */
  lemma AutocorrectInsertsDescription(src: string, e: Example, config: Config, toStringLiteral: string -> string)
    requires |CorrectDescriptions(e.expectation, config)| > 0 && DescriptionNode(e.it).None?
    requires Selector(e.it).end <= |src|
    ensures var p := Selector(e.it).end;
            var desc := toStringLiteral(CorrectDescriptions(e.expectation, config)[0]);
            Applicable(src, Autocorrect(e, config, toStringLiteral)) &&
            Apply(src, Autocorrect(e, config, toStringLiteral)) ==
            src[..p] + " " + desc + (if |e.it.kids| > 0 then "," else "") + src[p..]
  {
    var p := Selector(e.it).end;
    var edits := Autocorrect(e, config, toStringLiteral);
    assert ApplyFrom(src, edits, 0) == src[0..p] + edits[0].text + ApplyFrom(src, edits[1..], p);
    if |e.it.kids| > 0 {
      assert edits[1..][1..] == [];
      assert ApplyFrom(src, edits[1..], p) == src[p..p] + "," + ApplyFrom(src, [], p);
    } else {
      assert edits[1..] == [];
    }
  }

  /** The description the correction writes is a correct one, unless the configuration contradicts itself. */
  lemma CorrectionIsCorrect(expectation: string, config: Config)
    requires |CorrectDescriptions(expectation, config)| > 0
    requires !config.strict ==> CorrectPrefix(expectation, config) <= CorrectDescriptions(expectation, config)[0]
    ensures CorrectDescription(Some(CorrectDescriptions(expectation, config)[0]), expectation, config)
  {
  }

  /** The default descriptions start with the default prefixes, so strictly correct is also loosely correct. */
  lemma DefaultsConsistent(desc: Option<string>, expectation: string)
    ensures CorrectDescription(desc, expectation, Defaults) ==> CorrectDescription(desc, expectation, Defaults.(strict := false))
  {
    if CorrectDescription(desc, expectation, Defaults) {
      var d := desc.value;
      if expectation == "expect_offense" {
        assert d == PositiveDescriptions[0] || d == PositiveDescriptions[1];
        assert PositivePrefix <= PositiveDescriptions[0] by {
          assert PositiveDescriptions[0][..|PositivePrefix|] == PositivePrefix;
        }
        assert PositivePrefix <= PositiveDescriptions[1] by {
          assert PositiveDescriptions[1][..|PositivePrefix|] == PositivePrefix;
        }
      } else {
        assert d == NegativeDescriptions[0];
        assert NegativePrefix <= NegativeDescriptions[0] by {
          assert NegativeDescriptions[0][..|NegativePrefix|] == NegativePrefix;
        }
      }
    }
  }

  /** Under the defaults, `'registers at least one offense'` passes only in non-strict mode. */
  lemma SimilarDescription()
    ensures !CorrectDescription(Some("registers at least one offense"), "expect_offense", Defaults)
    ensures CorrectDescription(Some("registers at least one offense"), "expect_offense", Defaults.(strict := false))
  {
    assert "registers at least one offense"[..|PositivePrefix|] == PositivePrefix;
    assert "registers at least one offense"[11] != PositiveDescriptions[0][11];
    assert "registers at least one offense"[11] != PositiveDescriptions[1][11];
  }

  /** `it do expect_offense(...) end` in strict mode: reported at the `it` selector. */
  lemma MissingDescriptionReported(n: Node, config: Config)
    requires config.strict && RspecExample(n).Some? && RspecExample(n).value.it.kids == []
    ensures OnBlock(n, config) == [Offense(Selector(n.recv.value), Message(n.body.value.name))]
  {
  }

  /** `it focus: true do ... end` is corrected to `it 'registers an offense', focus: true do ... end`. */
  lemma InsertExample(e: Example, toStringLiteral: string -> string)
    requires e.expectation == "expect_offense" && ItCall(e.it) && e.it.range.begin == 0 && |e.it.kids| == 1 && e.it.kids[0].kind == Hash
    requires toStringLiteral("registers an offense") == "'registers an offense'"
    ensures Apply("it focus: true do", Autocorrect(e, Defaults, toStringLiteral)) == "it 'registers an offense', focus: true do"
  {
    var src := "it focus: true do";
    assert CorrectDescriptions(e.expectation, Defaults)[0] == "registers an offense";
    AutocorrectInsertsDescription(src, e, Defaults, toStringLiteral);
    InsertExampleText(src);
  }

  lemma InsertExampleText(src: string)
    requires src == "it focus: true do"
    ensures src[..2] + " " + "'registers an offense'" + "," + src[2..] == "it 'registers an offense', focus: true do"
  {
    assert src[..2] == "it";
    assert src[2..] == " focus: true do";
    InsertExampleHead();
    InsertExampleTail();
  }

  lemma InsertExampleHead()
    ensures "it" + " " + "'registers an offense'" == "it 'registers an offense'"
  {
    assert "it" + " " == "it ";
  }

  lemma InsertExampleTail()
    ensures "it 'registers an offense'" + "," + " focus: true do" == "it 'registers an offense', focus: true do"
  {
    assert "it 'registers an offense'" + "," == "it 'registers an offense',";
  }
}

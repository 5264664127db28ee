# rubocop-sidekiq, modelled in Dafny

rubocop-sidekiq is a set of RuboCop cops that look at Ruby code using
Sidekiq. Each cop visits nodes of an immutable Ruby syntax tree. It reports
offenses, as a source range plus a message, and may propose text
corrections. This project models the cops and their shared helpers over a
Dafny syntax tree, and proves what each cop reports.

- `wrappers.dfy`: `Option` and `Result`.
- `sequences.dfy`: order-preserving `Filter`, `First` (Ruby's `detect`),
  `UniqBy` (Ruby's `uniq`), `Join`, and `Store`. `Store` is the map a
  sequence of hash assignments builds, where a later key replaces an
  earlier one.
- `syntax.dfy`: the syntax tree. A `Node` has a kind, an optional receiver,
  a name (method name, constant name or literal value), ordered children,
  an optional body and a source range. `Preorder` is the parser's
  depth-first order, used by `each_descendant` and `def_node_search`.
  `Values` gives the elements of an array or the values of a hash. `Erase`
  drops source locations, matching Ruby's structural node equality.
- `reports.dfy`: offenses, text edits, and the application of
  non-overlapping edits to a source string. `ReportWhere` reports the nodes
  that satisfy a predicate.
- `helpers.dfy`: `Sidekiq::Helpers`. It covers job recognition
  (`sidekiq_job?`, `in_sidekiq_job?`) and the selection and expansion of
  perform arguments. It also has the approved-range list, the class
  `ApprovedRanges`.
- `detect_methods.dfy` and `unserializable_argument.dfy`: the map from
  each method's call to its potentially unserializable return values. It
  is built by the imperative `Detector.Call` and stored by
  `UnserializableArgument.Cop.Investigate`.
- One file per cop:
  - `date_time_argument.dfy` and `active_record_argument.dfy` are classes
    whose `on_send` loops update the shared range list.
  - The others are pure functions from a node (plus its ancestors and
    configuration) to its offenses.
  - `incorrect_example_description.dfy` also models the description
    correction as edits applied to the source text.

Each NodePattern string becomes a hand-written predicate. A `$` capture
becomes a returned `Option<Node>`. `` ` `` means "this node or a
descendant" (`Somewhere`). `<x ...>` means "some child matches", and the
capture is the first matching child.

Foreign helpers are function-typed parameters with no interpretation:
`to_string_literal`, `rational_literal?`, `const_name`,
`defined_module_name`, and a cop's own `unserializable?`. Configuration
values are plain parameters: `AllowedMethods`, `AllowedNames`,
`Whitelist`, and the `Strict`/prefix/description settings. A node's
ancestors are an explicit sequence, innermost first.

## Model

| member | source | states |
|---|---|---|
| Sequences.First | lib/rubocop/cop/helpers.rb:39 | `detect`: None iff no element satisfies the test, otherwise the earliest element that does |
| Sequences.UniqBy | lib/rubocop/cop/sidekiq/unserializable_argument/detect_methods.rb:50 | `uniq`: no two results share a key; each result is the first element of the input with its key; every input key is kept |
| Sequences.UniqByPrefix | lib/rubocop/cop/sidekiq/unserializable_argument/detect_methods.rb:50 | `uniq` keeps input order: the result for a prefix of the input is a prefix of the result |
| Sequences.UniqByDistinct | lib/rubocop/cop/sidekiq/unserializable_argument/detect_methods.rb:50 | `uniq` leaves a repetition-free sequence unchanged |
| Sequences.Filter | lib/rubocop/cop/sidekiq/unserializable_argument/detect_methods.rb:56-57 | `select`: result no longer than the input, and every element passes |
| Sequences.FilterMembers | lib/rubocop/cop/sidekiq/unserializable_argument/detect_methods.rb:56-57 | an element is selected iff it is in the input and passes |
| Sequences.FilterAppend | lib/rubocop/cop/sidekiq/unserializable_argument/detect_methods.rb:56-57 | selection distributes over concatenation, so source order is kept |
| Sequences.Join | lib/rubocop/cop/sidekiq/named_queue.rb:55 | `join`: empty list gives the empty string, one element gives itself (JoinAppend, JoinCons and JoinLength give the rest) |
| Sequences.JoinAppend | lib/rubocop/cop/sidekiq/named_queue.rb:55 | one more part is written after a separator |
| Sequences.JoinCons | lib/rubocop/cop/sidekiq/named_queue.rb:55 | the first part is followed by a separator and the join of the rest |
| Sequences.JoinLength | lib/rubocop/cop/sidekiq/named_queue.rb:55 | the joined length is the parts' total length plus one separator between each two parts |
| Sequences.StoreOrigin | lib/rubocop/cop/sidekiq/unserializable_argument/detect_methods.rb:28-33 | every key of the built hash comes from an assignment of exactly that key and value |
| Sequences.StoreLatest | lib/rubocop/cop/sidekiq/unserializable_argument/detect_methods.rb:32 | an assigned key is present, and holds the assigned value unless a later assignment reuses the key |
| Syntax.Preorder | lib/rubocop/cop/sidekiq/active_record_argument.rb:24-26 | the pre-order walk starts with the node itself |
| Syntax.Values | lib/rubocop/cop/helpers.rb:52 | the values of a node are strictly smaller than the node, so expansion terminates |
| Syntax.PairValues | lib/rubocop/cop/helpers.rb:52 | each hash value comes from a two-child pair of that hash (keys are never values) |
| Syntax.Erase | lib/rubocop/cop/sidekiq/unserializable_argument/detect_methods.rb:32 | location-free copy: same kind, name and arity, no source range |
| Reports.Report | lib/rubocop/cop/sidekiq/active_record_argument.rb:34 | one offense per node, in order, at the node's range with its message |
| Reports.ReportWhere | lib/rubocop/cop/sidekiq/symbol_argument.rb:19-21 | every offense comes from a node passing the test, and every passing node has its offense |
| Reports.ReportWhereSingle | lib/rubocop/cop/sidekiq/symbol_argument.rb:20 | one node gives its offense iff it passes the test |
| Reports.ReportSelected | lib/rubocop/cop/sidekiq/symbol_argument.rb:19-21 | reporting the selected nodes gives offenses only for passing nodes, and one for every passing node |
| Helpers.InSidekiqJob | lib/rubocop/cop/helpers.rb:38-40 | Some iff some ancestor is a job; the result is the innermost such ancestor |
| Helpers.SidekiqPerform | lib/rubocop/cop/helpers.rb:29-31 | captures the method name iff the node is a send on a const receiver named `perform_async`, `perform_in` or `perform_at` |
| Helpers.Expand | lib/rubocop/cop/helpers.rb:49-57 | no array or hash node is ever returned |
| Helpers.ExpandReaches | lib/rubocop/cop/helpers.rb:49-57 | a node is in the expansion iff it is reachable through array elements and hash values and is not itself a container |
| Helpers.ExpandFlat | lib/rubocop/cop/helpers.rb:49-57 | a list without containers expands to itself |
| Helpers.ExpandAppend | lib/rubocop/cop/helpers.rb:50 | expansion distributes over concatenation, keeping source order |
| Helpers.ExpandSinglePair | lib/rubocop/cop/helpers.rb:51-52 | `{key => value}` expands to the value alone |
| Helpers.ExpandNestedExample | spec/shared_examples/nested_unserializable.rb:56-67 | `[:a, {b: :c}]` expands to `:a, :c`; the key `:b` is dropped |
| Helpers.SidekiqArguments | lib/rubocop/cop/helpers.rb:42-47 | empty unless the node is a Sidekiq perform; never holds a container |
| Helpers.ScheduledArguments | lib/rubocop/cop/helpers.rb:45-46 | `perform_in`/`perform_at` drop exactly their first argument compared with `perform_async` |
| Helpers.InspectedArguments | lib/rubocop/cop/helpers.rb:42-57 | a node is a `perform_async` argument iff it is reachable from the arguments and is not a container |
| Helpers.WithinOrder | lib/rubocop/cop/helpers.rb:71-73 | `within?` is reflexive and transitive |
| Helpers.CoveredEmpty | lib/rubocop/cop/helpers.rb:59-62 | nothing is approved by an empty list |
| Helpers.CoveredAfterApprove | lib/rubocop/cop/helpers.rb:59-68 | after appending a range, a node is approved iff it was before or lies within the new range |
| Helpers.CoveredGrows | lib/rubocop/cop/helpers.rb:65-68 | approval is never lost when ranges are added |
| Helpers.CoveredPrefix | lib/rubocop/cop/helpers.rb:65-68 | a list that extends another approves everything the other approves |
| Helpers.ApprovedRanges.constructor | lib/rubocop/cop/helpers.rb:60 | a fresh cop starts with no approved ranges |
| Helpers.ApprovedRanges.Approve | lib/rubocop/cop/helpers.rb:65-68 | appends the node's range and changes nothing else |
| Helpers.ApprovedRanges.IsApproved | lib/rubocop/cop/helpers.rb:59-62 | true iff some stored range contains the node's range |
| Helpers.JobClassExamples | spec/rubocop/cop/sidekiq/helpers_spec.rb:32-65 | the include counts at any statement position; a class merely containing a job class is not one; a class without a body is not one |
| Helpers.InSidekiqJobExamples | spec/rubocop/cop/sidekiq/helpers_spec.rb:80-163 | an enclosing `Class.new` job is found; a module is not a job |
| Helpers.InJobClass | lib/rubocop/cop/helpers.rb:38-40 | a statement of `class MyJob; include Sidekiq::Job; ...; end` is inside that class's job |
| DetectMethods.MethodDefinitions | lib/rubocop/cop/sidekiq/unserializable_argument/detect_methods.rb:9-15 | exactly the `def`, `defs` and `define_method` block nodes of the tree, the root included |
| DetectMethods.Sanitize | lib/rubocop/cop/sidekiq/unserializable_argument/detect_methods.rb:70-79 | same length; each node keeps its kind, receiver and name, a send loses its arguments and location, every other node is kept as is |
| DetectMethods.NodeValues | lib/rubocop/cop/sidekiq/unserializable_argument/detect_methods.rb:60-68 | an array or hash yields one sanitized value per element or hash value, in order; any other non-return node yields exactly itself, sanitized; every value is sanitized |
| DetectMethods.NodeValuesOfReturn | lib/rubocop/cop/sidekiq/unserializable_argument/detect_methods.rb:61-62 | a `return` yields exactly the suspected values of its (unparenthesised) arguments |
| DetectMethods.NodeValuesAllMembers | lib/rubocop/cop/sidekiq/unserializable_argument/detect_methods.rb:56 | a value of the `flat_map` is exactly a value of one of the nodes |
| DetectMethods.NodeValuesAllAppend | lib/rubocop/cop/sidekiq/unserializable_argument/detect_methods.rb:56 | the `flat_map` keeps the nodes' order: it distributes over concatenation |
| DetectMethods.ReturnValuesFor | lib/rubocop/cop/sidekiq/unserializable_argument/detect_methods.rb:53-58 | every value returned is potentially unserializable and sanitized |
| DetectMethods.ReturnValuesForMembers | lib/rubocop/cop/sidekiq/unserializable_argument/detect_methods.rb:53-58 | a value is returned for the nodes iff it is suspected and is a value of the `flat_map`, that is, of one of the nodes |
| DetectMethods.ReturnValuesForLeaf | lib/rubocop/cop/sidekiq/unserializable_argument/detect_methods.rb:53-68 | a plain node yields itself iff it is potentially unserializable |
| DetectMethods.ReturnValuesForReturn | lib/rubocop/cop/sidekiq/unserializable_argument/detect_methods.rb:61-62 | a `return` yields the values of its arguments |
| DetectMethods.BodyValuesMembers | lib/rubocop/cop/sidekiq/unserializable_argument/detect_methods.rb:43-48 | a body that is a `return` has that return's suspected values; otherwise a value is collected iff it is suspected and is a value of a `return` descendant or of the last expression |
| DetectMethods.ReturnsValuesMembers | lib/rubocop/cop/sidekiq/unserializable_argument/detect_methods.rb:46 | the values of the `return` descendants are the suspected values of some `return` among them |
| DetectMethods.ReturnValues | lib/rubocop/cop/sidekiq/unserializable_argument/detect_methods.rb:38-51 | nil iff the body is nil; otherwise values that are pairwise different up to location, each potentially unserializable and sanitized |
| DetectMethods.ReturnValuesFirst | lib/rubocop/cop/sidekiq/unserializable_argument/detect_methods.rb:43-50 | each returned value is the first body value equal to it up to location, and every body value has an equal returned value |
| DetectMethods.LeafBodyValues | lib/rubocop/cop/sidekiq/unserializable_argument/detect_methods.rb:47 | a plain body's value is itself when suspected, nothing otherwise |
| DetectMethods.LeafReturnValues | lib/rubocop/cop/sidekiq/unserializable_argument/detect_methods.rb:38-51 | a plain body returns exactly itself when suspected, and nothing otherwise |
| DetectMethods.UniqDifferentKinds | lib/rubocop/cop/sidekiq/unserializable_argument/detect_methods.rb:50 | two values of different kinds are never merged by `uniq` |
| DetectMethods.Key | lib/rubocop/cop/sidekiq/unserializable_argument/detect_methods.rb:83-89 | the key holds the definition's location-free receiver, its name, and the Ruby class of the name (symbol for `def`, the literal's for `define_method`) |
| DetectMethods.SymbolNamedSharesKey | lib/rubocop/cop/sidekiq/unserializable_argument/detect_methods.rb:83-89 | `define_method(:foo)` and `def foo` share a key |
| DetectMethods.StringNamedKeptApart | lib/rubocop/cop/sidekiq/unserializable_argument/detect_methods.rb:83-89 | `define_method('foo')` and `def foo` get different keys |
| DetectMethods.Entries | lib/rubocop/cop/sidekiq/unserializable_argument/detect_methods.rb:28-33 | one hash assignment (or none) per definition, in definition order |
| DetectMethods.DefinitionsSound | lib/rubocop/cop/sidekiq/unserializable_argument/detect_methods.rb:28-33 | every key is the call of a definition with values and holds that definition's non-empty, suspected, sanitized values |
| DetectMethods.DefinitionsComplete | lib/rubocop/cop/sidekiq/unserializable_argument/detect_methods.rb:28-33 | a definition with values is stored under its key; its values stay unless a later definition with an equal key (same receiver, same name of the same Ruby class) replaces them |
| DetectMethods.Detector.constructor | lib/rubocop/cop/sidekiq/unserializable_argument/detect_methods.rb:21-23 | keeps the cop's suspicion test |
| DetectMethods.Detector.Call | lib/rubocop/cop/sidekiq/unserializable_argument/detect_methods.rb:25-34 | the loop builds exactly the specified map (empty for a missing tree), so the two lemmas above hold of its result |
| UnserializableArgument.Cop.constructor | lib/rubocop/cop/sidekiq/unserializable_argument.rb:16-19 | `identifier_map` starts unset |
| UnserializableArgument.Cop.Investigate | lib/rubocop/cop/sidekiq/unserializable_argument.rb:21-27 | `identifier_map` becomes exactly the detector's map for this tree, with nothing carried over |
| UnserializableArgument.SuspectedKinds | lib/rubocop/cop/sidekiq/unserializable_argument.rb:8-13 | with "is a symbol" as the test, int/str/true/false/nil/float literals are never suspected; symbols, sends, local variables and consts always are |
| UnserializableArgument.MultipleReturnExample | spec/rubocop/cop/sidekiq/unserializable_argument/detect_methods_spec.rb:109-123 | `return :symbol, other_method, false` stores the symbol and the bare call |
| UnserializableArgument.ConditionalReturnExample | spec/rubocop/cop/sidekiq/unserializable_argument/detect_methods_spec.rb:75-90 | a `return` nested in a condition is found; the trailing `false` adds nothing |
| UnserializableArgument.DefineMethodExample | spec/rubocop/cop/sidekiq/unserializable_argument/detect_methods_spec.rb:215-229 | `define_method(:my_method)` is stored under the call `my_method` |
| UnserializableArgument.SerializableReturnExample | spec/rubocop/cop/sidekiq/unserializable_argument/detect_methods_spec.rb:308-320 | `return 5` yields no values, so the method is not stored |
| DateTimeArgument.AllowedMethods | lib/rubocop/cop/sidekiq/date_time_argument.rb:91-93 | a method is allowed iff it is configured or is `to_i`/`to_s` |
| DateTimeArgument.Message | lib/rubocop/cop/sidekiq/date_time_argument.rb:103-106 | the duration message iff `duration?` holds, the date/time message otherwise |
| DateTimeArgument.OffensesEach | lib/rubocop/cop/sidekiq/date_time_argument.rb:87 | one offense per reported node, in order, at the node with the message `message` gives it |
| DateTimeArgument.ScanSound | lib/rubocop/cop/sidekiq/date_time_argument.rb:76-88 | every reported node is an argument satisfying `date_time_arg?`, with a method not allowed, outside the ranges approved beforehand |
| DateTimeArgument.ScanKeepsRanges | lib/rubocop/cop/sidekiq/date_time_argument.rb:82-84 | the approved list only grows, and each new range is that of an allowed date/time argument |
| DateTimeArgument.ScanPrefix | lib/rubocop/cop/sidekiq/date_time_argument.rb:76 | the walk over a prefix of the arguments is a prefix of the whole walk |
| DateTimeArgument.ScanComplete | lib/rubocop/cop/sidekiq/date_time_argument.rb:76-88 | a date/time argument with a method not allowed, which no approved range covers, is reported |
| DateTimeArgument.ScanApproves | lib/rubocop/cop/sidekiq/date_time_argument.rb:82-85 | an uncovered date/time argument with an allowed method has its range approved |
| DateTimeArgument.ConversionsNeverReported | lib/rubocop/cop/sidekiq/date_time_argument.rb:52 | nothing ending in `to_i` or `to_s` is ever reported, whatever the configuration |
| DateTimeArgument.Cop.constructor | lib/rubocop/cop/sidekiq/date_time_argument.rb:91-93 | a fresh cop holds its configuration, no approved ranges and no offenses |
| DateTimeArgument.Cop.OnSend | lib/rubocop/cop/sidekiq/date_time_argument.rb:75-89 | the loop appends exactly the walk's offenses and approved ranges for the node's perform arguments |
| DateTimeArgument.Cop.Visit | lib/rubocop/cop/sidekiq/date_time_argument.rb:76-86 | the loop body performs exactly one step of the walk on the approved ranges and the offenses |
| DateTimeArgument.TimeNowReported | spec/rubocop/cop/sidekiq/date_time_argument_spec.rb:10-17 | `Time.now` is reported with the date/time message |
| DateTimeArgument.ScanSingle | lib/rubocop/cop/sidekiq/date_time_argument.rb:76-88 | a lone date/time argument is approved iff its method is allowed, and reported otherwise |
| DateTimeArgument.ConversionApproved | spec/rubocop/cop/sidekiq/date_time_argument_spec.rb:70-76 | `Time.now.to_i` is approved, not reported, and its inner `Time.now` is covered |
| DateTimeArgument.OneHourIsDuration | spec/rubocop/cop/sidekiq/date_time_argument_spec.rb:123-130 | `1.hour` is a duration with the duration message |
| DateTimeArgument.DurationClassIsDuration | spec/rubocop/cop/sidekiq/date_time_argument_spec.rb:96-103 | `ActiveSupport::Duration.new(...)` gets the duration message |
| DateTimeArgument.HourAgoIsTime | spec/rubocop/cop/sidekiq/date_time_argument_spec.rb:132-139 | `1.hour.ago` is a date/time argument with the date/time message |
| DateTimeArgument.ConfiguredMethodApproved | spec/rubocop/cop/sidekiq/date_time_argument_spec.rb:153-163 | with `AllowedMethods: [foo, bar]`, `Time.now.bar` is approved and not reported |
| ActiveRecordArgument.Candidates | lib/rubocop/cop/sidekiq/active_record_argument.rb:24-26 | a node is a candidate iff it is in the call's tree and is a query method sent to something containing a const |
| ActiveRecordArgument.RangesOf | lib/rubocop/cop/sidekiq/active_record_argument.rb:35 | the ranges of the reported nodes, in order |
| ActiveRecordArgument.DenySound | lib/rubocop/cop/sidekiq/active_record_argument.rb:31-36 | every reported node is a candidate outside the ranges denied beforehand |
| ActiveRecordArgument.DenyNoNesting | lib/rubocop/cop/sidekiq/active_record_argument.rb:32-35 | no reported node lies within the range of an earlier reported one |
| ActiveRecordArgument.DenyComplete | lib/rubocop/cop/sidekiq/active_record_argument.rb:31-36 | every candidate is reported or lies within a denied range |
| ActiveRecordArgument.QueriesReported | lib/rubocop/cop/sidekiq/active_record_argument.rb:24-36 | every query call anywhere in a perform call is reported, or lies within a range denied before or reported |
| ActiveRecordArgument.Cop.constructor | lib/rubocop/cop/helpers.rb:66 | a fresh cop has no denied ranges and no offenses |
| ActiveRecordArgument.Cop.OnSend | lib/rubocop/cop/sidekiq/active_record_argument.rb:28-37 | nothing changes unless the node is a Sidekiq perform; otherwise the loop's offenses and denied ranges are appended |
| ActiveRecordArgument.Cop.DenyEach | lib/rubocop/cop/sidekiq/active_record_argument.rb:31-36 | the loop appends exactly the specified reported nodes and their ranges |
| ActiveRecordArgument.Cop.DenyOne | lib/rubocop/cop/sidekiq/active_record_argument.rb:32-35 | one candidate: skipped when a denied range covers it, otherwise reported and its range denied |
| ActiveRecordArgument.QueryNames | lib/rubocop/cop/sidekiq/active_record_argument.rb:10-22 | `first`, `where` and `all` are query methods |
| ActiveRecordArgument.PerformNotQuery | lib/rubocop/cop/sidekiq/active_record_argument.rb:10-22 | `perform_async` is not a query method |
| ActiveRecordArgument.InstanceFindIgnored | spec/rubocop/cop/sidekiq/active_record_argument_spec.rb:46-52 | `foo.find` is not a candidate |
| ActiveRecordArgument.ChainCandidates | spec/rubocop/cop/sidekiq/active_record_argument_spec.rb:28-35 | `Model.where(foo: :bar).first` yields the chain and then its `where` |
| ActiveRecordArgument.NoQueriesAmong | lib/rubocop/cop/sidekiq/active_record_argument.rb:24-26 | for any nodes none of which is a method call, the search selects nothing |
| ActiveRecordArgument.DenyInner | lib/rubocop/cop/sidekiq/active_record_argument.rb:32-35 | a candidate inside an earlier reported one is skipped |
| ActiveRecordArgument.ChainReportedOnce | spec/rubocop/cop/sidekiq/active_record_argument_spec.rb:28-35 | the chain is reported once, as the whole chain |
| ActiveRecordArgument.NestedQueryFound | spec/rubocop/cop/sidekiq/active_record_argument_spec.rb:54-65 | `MyJob.perform_async(finder(Model.all))` finds `Model.all` |
| ConstArgument.Message | lib/rubocop/cop/sidekiq/const_argument.rb:43 | the `self` message iff the argument is `self`, the general one otherwise |
| ConstArgument.OnSend | lib/rubocop/cop/sidekiq/const_argument.rb:38-45 | nothing for a non-perform; otherwise exactly the offenses of the class-like inspected arguments, each with its message: every offense is one of theirs and each of theirs is present |
| ConstArgument.SelfReported | spec/rubocop/cop/sidekiq/const_argument_spec.rb:40-47 | a `self` anywhere among the expanded arguments is reported with the `self` message |
| ConstArgument.OnlyClassLikeReported | lib/rubocop/cop/sidekiq/const_argument.rb:40-41 | every offense is for a const-like argument that is not an upper-case constant |
| ConstArgument.ConstantNameExamples | lib/rubocop/cop/sidekiq/const_argument.rb:19 | `MY_CONSTANT` and `V2` match the constant pattern; `MyClass` and the empty name do not |
| ConstArgument.PerformWithArguments | lib/rubocop/cop/helpers.rb:42-57 | a single plain argument is the only inspected argument |
| ConstArgument.PerformWithReport | lib/rubocop/cop/sidekiq/const_argument.rb:39-43 | a single plain argument is reported iff it is flagged |
| ConstArgument.ClassReported | spec/rubocop/cop/sidekiq/const_argument_spec.rb:5-12 | `MyClass` is reported |
| ConstArgument.ScopedClassReported | spec/rubocop/cop/sidekiq/const_argument_spec.rb:58-65 | `Namespace::Class` is reported |
| ConstArgument.ValueConstantAllowed | spec/rubocop/cop/sidekiq/const_argument_spec.rb:91-97 | `MyClass::MY_CONSTANT` is not reported |
| ConstArgument.SelfArgumentReported | spec/rubocop/cop/sidekiq/const_argument_spec.rb:40-47 | `self` is reported with the `self` message |
| ConstArgument.InitializerReported | spec/rubocop/cop/sidekiq/const_argument_spec.rb:14-20 | `Foo.new` is reported |
| ConstArgument.InitializerWithArgumentsIgnored | lib/rubocop/cop/sidekiq/const_argument.rb:26-28 | `Foo.new(1)` does not match `(send const :new)` |
| SymbolArgument.OnSend | lib/rubocop/cop/sidekiq/symbol_argument.rb:18-22 | nothing for a non-perform; otherwise exactly the offenses of the symbol arguments: every offense is one of theirs and each of theirs is present |
| SymbolArgument.SymbolReported | lib/rubocop/cop/sidekiq/symbol_argument.rb:19-20 | a symbol is reported iff it is reachable through arrays and hash values of the arguments |
| SymbolArgument.Autocorrect | lib/rubocop/cop/sidekiq/symbol_argument.rb:24-28 | one edit over the symbol's range, writing the string literal of its name |
| SymbolArgument.AutocorrectReplacesOnlySymbol | lib/rubocop/cop/sidekiq/symbol_argument.rb:26 | the correction changes exactly the symbol's text and nothing around it |
| SymbolArgument.AutocorrectExample | spec/rubocop/cop/sidekiq/symbol_argument_spec.rb:5-16 | `MyJob.perform_async(:foo)` becomes `MyJob.perform_async('foo')` |
| SymbolArgument.PairReported | lib/rubocop/cop/sidekiq/symbol_argument.rb:19-20 | a hash value is reported iff it is a symbol, whatever the key |
| SymbolArgument.HashValueReported | spec/shared_examples/nested_unserializable.rb:30-41 | in `(foo: :bar)` only `:bar` is reported |
| Sleep.OnSend | lib/rubocop/cop/sidekiq/sleep.rb:37-42 | the whole send is reported iff it is `sleep` (bare or on `Kernel`) inside a job |
| Sleep.NestedSleepReported | lib/rubocop/cop/sidekiq/sleep.rb:38-41 | a sleep anywhere below a job is reported |
| Sleep.SleepInJobClass | lib/rubocop/cop/sidekiq/sleep.rb:37-42 | a sleep call directly in a job class body is reported at the call |
| Sleep.SleepInJobReported | spec/rubocop/cop/sidekiq/sleep_spec.rb:4-49 | `sleep 5` and `Kernel.sleep 5` in a job class are reported |
| Sleep.OtherSleepsIgnored | spec/rubocop/cop/sidekiq/sleep_spec.rb:52-90 | `foo.sleep` is not matched; a sleep in a module is not reported |
| NamedQueue.Message | lib/rubocop/cop/sidekiq/named_queue.rb:44-55 | the message is the fixed text, the allowed names joined by `", "`, and a period |
| NamedQueue.QueueName | lib/rubocop/cop/sidekiq/named_queue.rb:46-48 | Some iff a `sidekiq_options` hash has a `queue` pair (symbol or string key); the capture is the first such pair's symbol or string value |
| NamedQueue.OnSend | lib/rubocop/cop/sidekiq/named_queue.rb:50-56 | reported iff a queue is named, its name is not allowed, and the send is in a job; the offense is on the value |
| NamedQueue.MessageExample | spec/rubocop/cop/sidekiq/named_queue_spec.rb:99-110 | the message with `default, low, critical` allowed |
| NamedQueue.OptionsQueue | spec/rubocop/cop/sidekiq/named_queue_spec.rb:99-110 | the queue pair is found when it comes before another pair |
| NamedQueue.OptionsQueueSecond | spec/rubocop/cop/sidekiq/named_queue_spec.rb:112-123 | the queue pair is found when another pair comes before it |
| NamedQueue.CriticalQueue | lib/rubocop/cop/sidekiq/named_queue.rb:50-56 | `queue: 'critical'` in a job is reported iff `critical` is not allowed |
| NamedQueue.OutsideJobIgnored | lib/rubocop/cop/sidekiq/named_queue.rb:52 | nothing is reported without an enclosing job |
| IncludedInModule.ModuleInclude | lib/rubocop/cop/sidekiq/included_in_module.rb:32-37 | captures the body iff a module or `Module.new` block has a body including the job module |
| IncludedInModule.ModuleIdentifier | lib/rubocop/cop/sidekiq/included_in_module.rb:60-66 | a module's const name, or the assigned constant for a block under a constant assignment, otherwise nil |
| IncludedInModule.OnModule | lib/rubocop/cop/sidekiq/included_in_module.rb:39-45 | the include body is reported iff it is captured and the module is not whitelisted |
| IncludedInModule.ClassesIgnored | spec/rubocop/cop/sidekiq/included_in_module_spec.rb:49-57 | a class is never reported |
| IncludedInModule.UnassignedBlockReported | spec/rubocop/cop/sidekiq/included_in_module_spec.rb:82-91 | an unassigned `Module.new` with the include is reported whatever the whitelist |
| IncludedInModule.ModuleExamples | spec/rubocop/cop/sidekiq/included_in_module_spec.rb:9-70 | a module is reported unless its name is whitelisted |
| IncludedInModule.AssignedBlockAllowed | spec/rubocop/cop/sidekiq/included_in_module_spec.rb:72-80 | `AbstractJob = Module.new do ... end` is allowed when `AbstractJob` is whitelisted |
| InlinePerform.PerformReceiver | lib/rubocop/cop/sidekiq/inline_perform.rb:19-21 | captures the receiver iff the node is a `perform` send that has one |
| InlinePerform.OnSend | lib/rubocop/cop/sidekiq/inline_perform.rb:23-28 | the send is reported iff it is `perform` on a receiver that is not a const |
| InlinePerform.InstancePerformReported | spec/rubocop/cop/sidekiq/inline_perform_spec.rb:4-42 | `MyJob.new.perform` and `job.perform(1)` are reported |
| InlinePerform.OthersIgnored | spec/rubocop/cop/sidekiq/inline_perform_spec.rb:44-60 | `MyJob.perform`, a bare `perform`, and `job.perform_async` are not reported |
| QueueInTransaction.PerformInTransaction | lib/rubocop/cop/sidekiq/queue_in_transaction.rb:41-43 | Some iff the block's call is an argument-free `transaction` whose body is a perform or a `begin` containing one; the capture is that perform |
| QueueInTransaction.OnBlock | lib/rubocop/cop/sidekiq/queue_in_transaction.rb:45-48 | the captured perform is reported, and only then |
| QueueInTransaction.BeginBodyReported | lib/rubocop/cop/sidekiq/queue_in_transaction.rb:41-48 | in an argument-free `transaction` block with a `begin` body, the first enqueueing statement is reported |
| QueueInTransaction.EnqueueInBlockReported | spec/rubocop/cop/sidekiq/queue_in_transaction_spec.rb:38-48 | a perform after another statement in the block is reported |
| QueueInTransaction.OtherBlocksIgnored | lib/rubocop/cop/sidekiq/queue_in_transaction.rb:42 | a block without a perform, or `transaction(true)`, is not reported |
| KeywordArguments.Parameters | lib/rubocop/cop/sidekiq/keyword_arguments.rb:38 | the parameters of a `def` |
| KeywordArguments.OnDefAsWritten | lib/rubocop/cop/sidekiq/keyword_arguments.rb:34-42 | as written: fails iff `perform_with_kwargs?` holds, otherwise reports nothing |
| KeywordArguments.OnDef | lib/rubocop/cop/sidekiq/keyword_arguments.rb:34-42 | with the job test: reports iff `perform` ends in a keyword parameter inside a job, and then exactly the offenses of its keyword parameters, one per parameter in parameter order |
| KeywordArguments.LastKeywordReported | lib/rubocop/cop/sidekiq/keyword_arguments.rb:30-41 | a list ending in a keyword parameter always yields an offense |
| KeywordArguments.OnDefInJob | lib/rubocop/cop/sidekiq/keyword_arguments.rb:34-42 | in a job, the offenses are the keyword parameters' |
| KeywordArguments.MixedSelection | lib/rubocop/cop/sidekiq/keyword_arguments.rb:38-41 | of two plain then two keyword parameters, only the keyword ones are reported |
| KeywordArguments.MixedInJob | lib/rubocop/cop/sidekiq/keyword_arguments.rb:34-42 | under any ancestors forming a job, `perform` with two plain then two keyword parameters reports the two keyword ones |
| KeywordArguments.MixedParameters | spec/rubocop/cop/sidekiq/keyword_arguments_spec.rb:117-130 | `perform(a, *b, c:, **d)` in a job reports `c:` and `**d` |
| KeywordArguments.KeywordPerformRaises | lib/rubocop/cop/sidekiq/keyword_arguments.rb:36 | `perform(foo:)` in a job fails as written, and is reported once when corrected |
| KeywordArguments.OthersIgnored | spec/rubocop/cop/sidekiq/keyword_arguments_spec.rb:133-156 | other methods, and `perform` outside a job, are not reported |
| IncorrectExampleDescription.RspecExample | lib/rubocop/cop/internal_affairs/incorrect_example_description.rb:17-23 | Some iff the block calls a bare `it` and its body is a bare `expect_offense`/`expect_no_offenses`; captures both |
| IncorrectExampleDescription.CorrectDescriptions | lib/rubocop/cop/internal_affairs/incorrect_example_description.rb:62-70 | the positive list for `expect_offense`, the negative list otherwise |
| IncorrectExampleDescription.CorrectPrefix | lib/rubocop/cop/internal_affairs/incorrect_example_description.rb:72-80 | the positive prefix for `expect_offense`, the negative prefix otherwise |
| IncorrectExampleDescription.DescriptionNode | lib/rubocop/cop/internal_affairs/incorrect_example_description.rb:87-90 | the first argument iff it is a string |
| IncorrectExampleDescription.Description | lib/rubocop/cop/internal_affairs/incorrect_example_description.rb:82-85 | the string's value, or nil |
| IncorrectExampleDescription.CorrectDescription | lib/rubocop/cop/internal_affairs/incorrect_example_description.rb:54-60 | strict: one of the listed descriptions (nil never is); otherwise: starts with the prefix |
| IncorrectExampleDescription.Selector | lib/rubocop/cop/internal_affairs/incorrect_example_description.rb:93 | the range of the method name `it` |
| IncorrectExampleDescription.OffenseLocation | lib/rubocop/cop/internal_affairs/incorrect_example_description.rb:92-94 | the description string when there is one, otherwise the `it` selector |
| IncorrectExampleDescription.Message | lib/rubocop/cop/internal_affairs/incorrect_example_description.rb:15 | the fixed text, the expect method's name, and a period |
| IncorrectExampleDescription.OnBlock | lib/rubocop/cop/internal_affairs/incorrect_example_description.rb:25-32 | one offense iff an example's description is not correct, at the offense location with the message |
| IncorrectExampleDescription.Autocorrect | lib/rubocop/cop/internal_affairs/incorrect_example_description.rb:34-46 | one replacement of the description string, or one or two insertions after `it` |
| IncorrectExampleDescription.AutocorrectReplacesDescription | lib/rubocop/cop/internal_affairs/incorrect_example_description.rb:96-98 | the corrected text differs only in the description string, now the first correct description |
| IncorrectExampleDescription.AutocorrectInsertsDescription | lib/rubocop/cop/internal_affairs/incorrect_example_description.rb:100-103 | the description is inserted right after `it`, followed by a comma when other arguments exist |
| IncorrectExampleDescription.CorrectionIsCorrect | lib/rubocop/cop/internal_affairs/incorrect_example_description.rb:54-60 | the description written by the correction is accepted by the check, when the configuration is consistent |
| IncorrectExampleDescription.DefaultsConsistent | lib/rubocop/cop/internal_affairs/incorrect_example_description.rb:5-13 | with the default lists, every strictly correct description also passes the prefix check |
| IncorrectExampleDescription.SimilarDescription | spec/rubocop/cop/internal_affairs/incorrect_example_description_spec.rb:151-215 | `registers at least one offense` fails strict mode and passes non-strict mode |
| IncorrectExampleDescription.MissingDescriptionReported | lib/rubocop/cop/internal_affairs/incorrect_example_description.rb:92-94 | in strict mode an `it` without arguments is reported at its selector |
| IncorrectExampleDescription.InsertExample | spec/rubocop/cop/internal_affairs/incorrect_example_description_spec.rb:69-85 | `it focus: true do` becomes `it 'registers an offense', focus: true do` |

## Left out

- The NodePattern compiler and the matcher and search macros are not modelled. Each pattern string is translated by hand into a predicate.
- The parser and source-range computation are not modelled. Trees and ranges are given as input.
- `add_offense` and the corrector buffer are not modelled. Offenses are returned as sequences, and corrections are edits applied to a string.
- `to_string_literal`, `rational_literal?`, `const_name`, `defined_module_name` and a cop's `unserializable?` are uninterpreted parameters, because their code lives outside the repository.
- Configuration loading (`cop_config`, the YAML defaults, `lib/rubocop-sidekiq.rb`) is not modelled. Configured values are plain parameters.
- `lib/rubocop/ast/node.rb` is not part of this model. It patches the foreign node class, and no modelled code uses it.
- Tracking of local, instance, class and global variables holding query results is not modelled. The active-record tests expect it, but the cop's code never consults `identifier_map`. The model follows the code. The tests and the code also part in a second place: spec/rubocop/cop/sidekiq/active_record_argument_spec.rb:67-77 and 92-102 (`finder(Model.first.id)`, `finder(id: Model.first.id)`) expect no offense, but lib/rubocop/cop/sidekiq/active_record_argument.rb:24-36 matches `Model.first` there (a query method on a constant). The model's `Candidates` reports it too, following the code.
- Helpers.SidekiqArguments: `perform_in`/`perform_at` with no arguments make Ruby slice to nil and then fail. This crash is a precondition (`PerformArity`) of the argument-inspecting cops, not modelled behaviour.
- IncorrectExampleDescription.CorrectDescription: in non-strict mode a missing description makes Ruby call `start_with?` on nil. This crash is a precondition, and the same holds for IncorrectExampleDescription.OnBlock.
- IncorrectExampleDescription.Autocorrect: an empty configured description list would make Ruby insert the literal of nil. Non-empty lists are a precondition.
- DetectMethods.ReturnValues: a body that is an empty `begin`, and a `define_method` block whose first argument is not a symbol, string or numeric literal, are preconditions (`Processable`). Ruby fails on the empty `begin` and on a variable name (an `lvar` node has no `value`). Whether an interpolated name (`dstr`) fails depends on the rubocop-ast version (newer versions give `dstr` nodes a `value`), so such names are excluded rather than modelled.
- KeywordArguments.Message: the message text is kept as the code writes it ("worker's"), and no claim is made about the wording the tests expect ("job's").
- QueueInTransaction.PerformInTransaction and NamedQueue.QueueName: when several children match `<$x ...>`, the capture is taken to be the first matching child in order.
- Cops' ancestor walks take the ancestors as an explicit sequence, innermost first, instead of parent links.

## Findings

| source | as written | input that shows it | evidently intended | confidence | as-written member | corrected member |
|---|---|---|---|---|---|---|
| lib/rubocop/cop/sidekiq/keyword_arguments.rb:36 | `on_def` calls `in_sidekiq_worker?`, which `Helpers` does not define, so every `perform` with a keyword parameter raises `NoMethodError` | `class MyJob; include Sidekiq::Job; def perform(foo:); end; end` | call `in_sidekiq_job?` (lib/rubocop/cop/helpers.rb:38-40) and report each keyword parameter | not executed | KeywordArguments.OnDefAsWritten, KeywordArguments.KeywordPerformRaises | KeywordArguments.OnDef |

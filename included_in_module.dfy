/**
 * `Sidekiq/IncludedInModule`: `include Sidekiq::Job` in a module (or in an
 * anonymous `Module.new` block) makes a job that cannot be instantiated.
 * Modules whose name is on the configured whitelist are exempt.
 */
module IncludedInModule {
  import opened Wrappers
  import opened Syntax
  import opened Reports
  import opened Helpers

  const Msg := "Do not include Sidekiq::Job in a module."

  /** `Module.new(...) do ... end`: a block on `Module.new` with a bare `Module`. */
  predicate AnonModule(n: Node) {
    n.kind == Block && n.recv.Some? && n.recv.value.kind == Send && n.recv.value.name == "new" &&
    n.recv.value.recv.Some? && IsBareConst(n.recv.value.recv.value, "Module")
  }

  /**
   * `module_include?`: the body of a module or of a `Module.new` block, when
   * that body includes `Sidekiq::Job`.
   */
  function ModuleInclude(n: Node): (r: Option<Node>)
    ensures r.Some? <==> (n.kind == Module || AnonModule(n)) && n.body.Some? && IncludesSidekiq(n.body.value)
    ensures r.Some? ==> r == n.body
  {
    if (n.kind == Module || AnonModule(n)) && n.body.Some? && IncludesSidekiq(n.body.value) then n.body else None
  }

  /**
   * `module_identifier`: a module's name as `const_name` spells it; for a
   * block, the name of the constant its parent assigns, if the parent is a
   * constant assignment. `constName` and `definedModuleName` stand for the
   * parser's helpers.
   */
  function ModuleIdentifier(n: Node, parent: Option<Node>, constName: Node -> string,
                            definedModuleName: Node -> Option<string>): (r: Option<string>)
    ensures n.kind == Module && n.recv.Some? ==> r == Some(constName(n.recv.value))
    ensures n.kind == Block && parent.Some? && parent.value.kind == Casgn ==> r == definedModuleName(parent.value)
    ensures r.Some? ==> n.kind == Module || (n.kind == Block && parent.Some? && parent.value.kind == Casgn)
  {
    if n.kind == Module then
      if n.recv.Some? then Some(constName(n.recv.value)) else None
    else if n.kind == Block && parent.Some? && parent.value.kind == Casgn then definedModuleName(parent.value)
    else None
  }

  /** `allowed_module?`: the module has an identifier, and it is whitelisted. */
  predicate AllowedModule(n: Node, parent: Option<Node>, whitelist: seq<string>, constName: Node -> string,
                          definedModuleName: Node -> Option<string>) {
    var id := ModuleIdentifier(n, parent, constName, definedModuleName);
    id.Some? && id.value in whitelist
  }

  /**
   * `on_module` (and `on_block`): the including body is reported, once,
   * unless the module is whitelisted.
   */
  function OnModule(n: Node, parent: Option<Node>, whitelist: seq<string>, constName: Node -> string,
                    definedModuleName: Node -> Option<string>): (r: seq<Offense>)
    ensures r != [] <==> ModuleInclude(n).Some? && !AllowedModule(n, parent, whitelist, constName, definedModuleName)
    ensures r == [] || r == [Offense(n.body.value.range, Msg)]
  {
    match ModuleInclude(n)
    case None => []
    case Some(body) =>
      if AllowedModule(n, parent, whitelist, constName, definedModuleName) then [] else [Offense(body.range, Msg)]
  }

  /** Classes, job classes included, are never reported. */
  lemma ClassesIgnored(n: Node, parent: Option<Node>, whitelist: seq<string>, constName: Node -> string,
                       definedModuleName: Node -> Option<string>)
    requires n.kind == Class
    ensures OnModule(n, parent, whitelist, constName, definedModuleName) == []
  {
  }

  /** An anonymous module block that is not assigned to a constant is reported whatever the whitelist. */
  lemma UnassignedBlockReported(n: Node, parent: Option<Node>, whitelist: seq<string>, constName: Node -> string,
                                definedModuleName: Node -> Option<string>)
    requires AnonModule(n) && n.body.Some? && IncludesSidekiq(n.body.value)
    requires parent.None? || parent.value.kind != Casgn
    ensures OnModule(n, parent, whitelist, constName, definedModuleName) == [Offense(n.body.value.range, Msg)]
  {
    assert ModuleInclude(n) == n.body;
    assert ModuleIdentifier(n, parent, constName, definedModuleName).None?;
  }

  /** `module MyJob; include Sidekiq::Job; end`. */
  function JobModule(name: string, r: Range, b: Range): Node {
    Node(Module, Some(Leaf(Const, name, r)), "", [], Some(IncludeJob(b)), r)
  }

  /** `module MyJob` is reported at its `include`; a whitelisted `module AbstractJob` is not. */
  lemma ModuleExamples(r: Range, b: Range, constName: Node -> string, definedModuleName: Node -> Option<string>)
    requires constName(Leaf(Const, "MyJob", r)) == "MyJob"
    requires constName(Leaf(Const, "AbstractJob", r)) == "AbstractJob"
    ensures OnModule(JobModule("MyJob", r, b), None, ["AbstractJob"], constName, definedModuleName) == [Offense(b, Msg)]
    ensures OnModule(JobModule("AbstractJob", r, b), None, ["AbstractJob"], constName, definedModuleName) == []
  {
    assert SidekiqInclude(IncludeJob(b));
    assert "MyJob" != "AbstractJob";
  }

  /** `Base = Module.new do include Sidekiq::Job end` is exempt once `Base` is whitelisted. */
  lemma AssignedBlockAllowed(r: Range, constName: Node -> string, definedModuleName: Node -> Option<string>)
    ensures var block := Node(Block, Some(SendNode(Some(Leaf(Const, "Module", r)), "new", [], r)), "",
                              [Node(Args, None, "", [], None, r)], Some(IncludeJob(r)), r);
            var casgn := Node(Casgn, None, "Base", [block], None, r);
            definedModuleName(casgn) == Some("Base") ==> OnModule(block, Some(casgn), ["Base"], constName, definedModuleName) == []
  {
    assert SidekiqInclude(IncludeJob(r));
  }
}

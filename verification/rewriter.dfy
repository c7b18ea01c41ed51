/**
 * The import rewriter: per-module alias tables, the rewrite of goog.require / goog.requireType,
 * goog.forwardDeclare and goog.module.get calls, name substitution and JSDoc substitution.
 * Tree mutations are returned as an `Action` rather than performed on a tree.
 */
module Rewriter {
  import opened Wrappers
  import opened DottedNames
  import opened Modules
  import opened StringNodes
  import JsDocRefs

  /** The two alias tables of the module being traversed: local names to canonical qualified names. */
  datatype AliasState = AliasState(vars: map<string, string>, types: map<string, string>)

  const NoAliases := AliasState(map[], map[])

  /** What the compiler supplies: the module registry, global naming, and the pass's configuration. */
  datatype Env = Env(
    registry: map<string, ModuleMetadata>,               // modules by Closure namespace
    globalName: (ModuleMetadata, string) -> string,      // the canonical global name of a module's namespace
    typesToRewriteIn: set<ModuleKind>)                   // the module kinds the pass rewrites in

  /** One `importedProperty: localAlias` entry of a destructuring import. */
  datatype ImportSpec = ImportSpec(property: string, alias: string)

  /** Where a goog.require / goog.requireType / goog.forwardDeclare call stands. */
  datatype ImportParent =
    | ExprResult                               // goog.require('ns');
    | NameBinding(name: string)                // const name = goog.require('ns');
    | Destructuring(specs: seq<ImportSpec>)    // const {p: a, ...} = goog.require('ns');
    | OtherParent                              // any other position; refused by an earlier check pass

  /** Where a goog.module.get call stands. */
  datatype GetParent =
    | FillingAnAlias     // x = goog.module.get('ns'); as a statement of its own
    | OtherUse           // any other position, e.g. use(goog.module.get('ns'))

  /** The visited node, as far as the rewriter distinguishes nodes. */
  datatype Node =
    | Require(namespace: string, parent: ImportParent)
    | RequireType(namespace: string, parent: ImportParent)
    | ForwardDeclare(namespace: string, parent: ImportParent, typeDeclarations: Option<seq<string>>)
    | ModuleGet(namespace: string, getParent: GetParent)
    | Name(ref: StringNode)
    | OtherNode

  /** The change made to the tree. */
  datatype Action =
    | Keep                            // the tree is left alone
    | DetachStatement                 // the statement enclosing the node is removed
    | ReplaceWithQName(qname: string) // the node is replaced by the qualified-name expression `qname`
    | SetString(node: StringNode)     // the NAME node is renamed in place

  datatype Diagnostic = InvalidForwardDeclare

  /** A violated assumption that an earlier pass is trusted to guarantee; the compiler stops on it. */
  datatype InternalError =
    | UnregisteredNamespace(namespace: string)
    | UnexpectedParent

  /** The result of handling one node. */
  datatype Effect = Effect(
    aliases: AliasState,
    action: Action,
    changeReported: bool,              // the change scope was told that the tree changed
    forwardDeclared: Option<string>,   // the type handed to compiler.forwardDeclareType
    diagnostic: Option<Diagnostic>)

  /** The result of visiting one node: the node's own effect and its JSDoc type references afterwards. */
  datatype Outcome = Outcome(effect: Effect, typeRefs: seq<StringNode>)

  /** `alias` names `target` both as a value and as a type. */
  function Bind(st: AliasState, alias: string, target: string): AliasState
  {
    AliasState(st.vars[alias := target], st.types[alias := target])
  }

  function SpecAliases(specs: seq<ImportSpec>): set<string>
  {
    set i | 0 <= i < |specs| :: specs[i].alias
  }

  /** No later entry of `specs` binds the alias of entry `i` again. */
  predicate LastBinding(specs: seq<ImportSpec>, i: nat)
    requires i < |specs|
  {
    forall j :: i < j < |specs| ==> specs[j].alias != specs[i].alias
  }

  /**
   * `r` is `st` after binding every destructured alias to `globalName.property`, in both tables:
   * exactly the aliases are added, every other key keeps its target, and an alias bound twice
   * gets the target of its last entry.
   */
  predicate BindsSpecs(st: AliasState, r: AliasState, globalName: string, specs: seq<ImportSpec>)
  {
    && r.vars.Keys == st.vars.Keys + SpecAliases(specs)
    && r.types.Keys == st.types.Keys + SpecAliases(specs)
    && (forall k :: k in st.vars && k !in SpecAliases(specs) ==> r.vars[k] == st.vars[k])
    && (forall k :: k in st.types && k !in SpecAliases(specs) ==> r.types[k] == st.types[k])
    && (forall i: nat :: i < |specs| && LastBinding(specs, i) ==>
          r.vars[specs[i].alias] == Qualify(globalName, specs[i].property)
          && r.types[specs[i].alias] == Qualify(globalName, specs[i].property))
  }

  /** The destructuring loop: each entry, in order, binds its alias to `globalName.property`. */
  function BindSpecs(st: AliasState, globalName: string, specs: seq<ImportSpec>): (r: AliasState)
    ensures BindsSpecs(st, r, globalName, specs)
    decreases |specs|
  {
    if |specs| == 0 then st
    else
      var st1 := Bind(st, specs[0].alias, Qualify(globalName, specs[0].property));
      var r := BindSpecs(st1, globalName, specs[1..]);
      BindSpecsStep(st, st1, r, globalName, specs);
      r
  }

  lemma SpecAliasesCons(specs: seq<ImportSpec>)
    requires |specs| > 0
    ensures SpecAliases(specs) == {specs[0].alias} + SpecAliases(specs[1..])
  {
  }

  /** Binding the first entry and then the rest binds all of them. */
  lemma BindSpecsStep(st: AliasState, st1: AliasState, r: AliasState, globalName: string,
                      specs: seq<ImportSpec>)
    requires |specs| > 0
    requires st1 == Bind(st, specs[0].alias, Qualify(globalName, specs[0].property))
    requires BindsSpecs(st1, r, globalName, specs[1..])
    ensures BindsSpecs(st, r, globalName, specs)
  {
    SpecAliasesCons(specs);
    forall i: nat | i < |specs| && LastBinding(specs, i)
      ensures r.vars[specs[i].alias] == Qualify(globalName, specs[i].property)
      ensures r.types[specs[i].alias] == Qualify(globalName, specs[i].property)
    {
      if i > 0 {
        assert specs[1..][i - 1] == specs[i];
        assert LastBinding(specs[1..], i - 1);
      }
    }
  }

  /**
   * The shared rewrite of an import of `ns`, owned by `required`, standing at `parent`. A bare
   * statement is removed (and a goog.module or ES module namespace becomes a type alias); an ES
   * module bound to names keeps its declaration and only the call becomes the global name; other
   * modules bound to names have those names inlined and the statement removed.
   */
  function RewriteImport(env: Env, st: AliasState, required: ModuleMetadata, ns: string, parent: ImportParent)
    : (r: Result<Effect, InternalError>)
    ensures r.Success? ==> r.value.changeReported && r.value.forwardDeclared.None? && r.value.diagnostic.None?
    ensures r.Failure? <==> parent.OtherParent?
    // goog.require('ns');
    ensures parent.ExprResult? ==>
      && r.Success?
      && r.value.action == DetachStatement
      && r.value.aliases.vars == st.vars
      && (IsNonLegacyGoogModule(required) || IsEs6Module(required) ==>
            r.value.aliases.types == st.types[ns := env.globalName(required, ns)])
      && (!IsNonLegacyGoogModule(required) && !IsEs6Module(required) ==> r.value.aliases.types == st.types)
    // const a = goog.require('es6'); const {a} = goog.require('es6');
    ensures (parent.NameBinding? || parent.Destructuring?) && IsEs6Module(required) ==>
      r == Success(Effect(st, ReplaceWithQName(env.globalName(required, ns)), true, None, None))
    // const a = goog.require('closure');
    ensures parent.NameBinding? && !IsEs6Module(required) ==>
      && r.Success?
      && r.value.action == DetachStatement
      && r.value.aliases.vars == st.vars[parent.name := env.globalName(required, ns)]
      && r.value.aliases.types == st.types[parent.name := env.globalName(required, ns)]
    // const {p: a} = goog.require('closure');
    ensures parent.Destructuring? && !IsEs6Module(required) ==>
      && r.Success?
      && r.value.action == DetachStatement
      && BindsSpecs(st, r.value.aliases, env.globalName(required, ns), parent.specs)
  {
    var globalName := env.globalName(required, ns);
    if parent.ExprResult? then
      var types := if IsNonLegacyGoogModule(required) || IsEs6Module(required)
                   then st.types[ns := globalName] else st.types;
      Success(Effect(st.(types := types), DetachStatement, true, None, None))
    else if IsEs6Module(required) then
      if parent.OtherParent? then Failure(UnexpectedParent)
      else Success(Effect(st, ReplaceWithQName(globalName), true, None, None))
    else
      match parent
      case NameBinding(name) => Success(Effect(Bind(st, name, globalName), DetachStatement, true, None, None))
      case Destructuring(specs) =>
        Success(Effect(BindSpecs(st, globalName, specs), DetachStatement, true, None, None))
      case OtherParent => Failure(UnexpectedParent)
  }

  /** goog.require / goog.requireType of `ns`: the rewrite of the import of the module owning `ns`. */
  function VisitRequire(env: Env, st: AliasState, ns: string, parent: ImportParent)
    : (r: Result<Effect, InternalError>)
    ensures ns !in env.registry ==> r == Failure(UnregisteredNamespace(ns))
    ensures ns in env.registry ==> r == RewriteImport(env, st, env.registry[ns], ns, parent)
  {
    if ns in env.registry then RewriteImport(env, st, env.registry[ns], ns, parent)
    else Failure(UnregisteredNamespace(ns))
  }

  /**
   * goog.forwardDeclare('ns'). Without exactly one declared type it reports InvalidForwardDeclare
   * and changes nothing. Otherwise the type is forward declared; an unregistered namespace is a
   * global whose statement is removed, a registered one is rewritten like goog.require.
   */
  function VisitForwardDeclare(env: Env, st: AliasState, ns: string, parent: ImportParent,
                               typeDeclarations: Option<seq<string>>): (r: Result<Effect, InternalError>)
    ensures typeDeclarations.None? || |typeDeclarations.value| != 1 ==>
      r == Success(Effect(st, Keep, false, None, Some(InvalidForwardDeclare)))
    ensures typeDeclarations.Some? && |typeDeclarations.value| == 1 && ns !in env.registry ==>
      r == if parent.ExprResult?
           then Success(Effect(st, DetachStatement, true, Some(typeDeclarations.value[0]), None))
           else Failure(UnexpectedParent)
    ensures typeDeclarations.Some? && |typeDeclarations.value| == 1 && ns in env.registry ==>
      && r.Success? == VisitRequire(env, st, ns, parent).Success?
      && (r.Success? ==>
            r.value == VisitRequire(env, st, ns, parent).value
                         .(forwardDeclared := Some(typeDeclarations.value[0])))
  {
    if typeDeclarations.None? || |typeDeclarations.value| != 1 then
      Success(Effect(st, Keep, false, None, Some(InvalidForwardDeclare)))
    else
      var declared := Some(typeDeclarations.value[0]);
      if ns !in env.registry then
        if parent.ExprResult? then Success(Effect(st, DetachStatement, true, declared, None))
        else Failure(UnexpectedParent)
      else
        match RewriteImport(env, st, env.registry[ns], ns, parent)
        case Failure(e) => Failure(e)
        case Success(e) => Success(e.(forwardDeclared := declared))
  }

  /**
   * goog.module.get('ns'). Filling a forward-declared alias removes the assignment statement;
   * anywhere else the call becomes the global name of `ns`. The alias tables are untouched.
   */
  function RewriteGoogModuleGet(env: Env, st: AliasState, required: Option<ModuleMetadata>, ns: string,
                                getParent: GetParent): (r: Result<Effect, InternalError>)
    ensures r.Success? ==> r.value.aliases == st && r.value.changeReported
    ensures getParent.FillingAnAlias? ==> r == Success(Effect(st, DetachStatement, true, None, None))
    ensures getParent.OtherUse? && required.Some? ==>
      r == Success(Effect(st, ReplaceWithQName(env.globalName(required.value, ns)), true, None, None))
    ensures r.Failure? <==> getParent.OtherUse? && required.None?
  {
    match getParent
    case FillingAnAlias => Success(Effect(st, DetachStatement, true, None, None))
    case OtherUse =>
      match required
      case None => Failure(UnregisteredNamespace(ns))
      case Some(m) => Success(Effect(st, ReplaceWithQName(env.globalName(m, ns)), true, None, None))
  }

  /**
   * goog.module.get('ns'): it fails only outside alias filling on an unregistered namespace;
   * otherwise it always changes the tree, reports it, and leaves the tables alone.
   */
  function VisitGoogModuleGet(env: Env, st: AliasState, ns: string, getParent: GetParent)
    : (r: Result<Effect, InternalError>)
    ensures r.Success? <==> getParent.FillingAnAlias? || ns in env.registry
    ensures r.Success? ==> r.value.aliases == st && r.value.action != Keep && r.value.changeReported
    ensures r.Success? ==> r.value.forwardDeclared.None? && r.value.diagnostic.None?
    ensures getParent.FillingAnAlias? ==> r.value.action == DetachStatement
    ensures getParent.OtherUse? && ns in env.registry ==>
      r.value.action == ReplaceWithQName(env.globalName(env.registry[ns], ns))
  {
    var required := if ns in env.registry then Some(env.registry[ns]) else None;
    RewriteGoogModuleGet(env, st, required, ns, getParent)
  }

  /**
   * A NAME node `n` whose name is not declared in `scope`: a value alias with a dotless target
   * renames it in place (reporting the change), a dotted target replaces it by a qualified name.
   * A declared name, or one without a value alias, is left alone.
   */
  function MaybeInlineName(st: AliasState, scope: set<string>, n: StringNode): (r: Effect)
    ensures r.aliases == st && r.forwardDeclared.None? && r.diagnostic.None?
    ensures n.text in scope || n.text !in st.vars ==> r.action == Keep && !r.changeReported
    ensures n.text !in scope && n.text in st.vars && '.' in st.vars[n.text] ==>
      r.action == ReplaceWithQName(st.vars[n.text]) && !r.changeReported
    ensures n.text !in scope && n.text in st.vars && '.' !in st.vars[n.text] ==>
      if st.vars[n.text] == n.text then r.action == Keep && !r.changeReported
      else r.action.SetString? && r.changeReported
           && r.action.node.text == st.vars[n.text]
           && r.action.node.originalName == (if n.originalName.Some? then n.originalName else Some(n.text))
  {
    if |st.vars| == 0 || n.text in scope || n.text !in st.vars then
      Effect(st, Keep, false, None, None)
    else
      var newName := st.vars[n.text];
      if '.' !in newName then
        var renamed := SafeSetString(n, newName);
        if renamed == n then Effect(st, Keep, false, None, None)
        else Effect(st, SetString(renamed), true, None, None)
      else
        Effect(st, ReplaceWithQName(newName), false, None, None)
  }

  /**
   * The node's own handling, before its JSDoc: goog.require and goog.requireType are handled alike,
   * and a node that is neither one of the four calls nor a NAME is left alone.
   */
  function Dispatch(env: Env, st: AliasState, node: Node, scope: set<string>)
    : (r: Result<Effect, InternalError>)
    ensures node.Require? || node.RequireType? ==> r == VisitRequire(env, st, node.namespace, node.parent)
    ensures node.ForwardDeclare? ==>
      r == VisitForwardDeclare(env, st, node.namespace, node.parent, node.typeDeclarations)
    ensures node.ModuleGet? ==> r == VisitGoogModuleGet(env, st, node.namespace, node.getParent)
    ensures node.Name? ==> r == Success(MaybeInlineName(st, scope, node.ref))
    ensures node.OtherNode? ==> r == Success(Effect(st, Keep, false, None, None))
    ensures node.Name? || node.ModuleGet? ==> r.Success? ==> r.value.aliases == st
    // INVALID_FORWARD_DECLARE is reported exactly for a forward declare without exactly one type
    ensures r.Success? ==>
      (r.value.diagnostic.Some? <==>
         node.ForwardDeclare? && (node.typeDeclarations.None? || |node.typeDeclarations.value| != 1))
  {
    match node
    case Require(ns, parent) => VisitRequire(env, st, ns, parent)
    case RequireType(ns, parent) => VisitRequire(env, st, ns, parent)
    case ForwardDeclare(ns, parent, decls) => VisitForwardDeclare(env, st, ns, parent, decls)
    case ModuleGet(ns, getParent) => VisitGoogModuleGet(env, st, ns, getParent)
    case Name(ref) => Success(MaybeInlineName(st, scope, ref))
    case OtherNode => Success(Effect(st, Keep, false, None, None))
  }

  /** The module being traversed is one the pass rewrites in. */
  predicate GateOpen(env: Env, current: Option<ModuleMetadata>)
  {
    current.Some? && current.value.kind in env.typesToRewriteIn
  }

  /**
   * Visiting one node of the module `current`: nothing happens outside a module or in a module
   * of a kind the pass does not rewrite in; otherwise the node is handled first and its JSDoc
   * type references are then rewritten with the type aliases as they stand after that.
   */
  function Visit(env: Env, st: AliasState, current: Option<ModuleMetadata>, node: Node, scope: set<string>,
                 typeRefs: seq<StringNode>): (r: Result<Outcome, InternalError>)
    ensures !GateOpen(env, current) ==> r == Success(Outcome(Effect(st, Keep, false, None, None), typeRefs))
    ensures GateOpen(env, current) ==> (r.Success? <==> Dispatch(env, st, node, scope).Success?)
    ensures GateOpen(env, current) && r.Success? ==>
      && r.value.effect == Dispatch(env, st, node, scope).value
      && |r.value.typeRefs| == |typeRefs|
      && forall i :: 0 <= i < |typeRefs| ==>
           r.value.typeRefs[i]
             == SafeSetString(typeRefs[i],
                              JsDocRefs.RewriteTypeName(r.value.effect.aliases.types, typeRefs[i].text))
  {
    if !GateOpen(env, current) then Success(Outcome(Effect(st, Keep, false, None, None), typeRefs))
    else
      match Dispatch(env, st, node, scope)
      case Failure(e) => Failure(e)
      case Success(e) => Success(Outcome(e, JsDocRefs.RewriteJsDoc(e.aliases.types, typeRefs)))
  }

  /** Leaving a module: both alias tables are emptied. */
  function ExitModule(st: AliasState): (r: AliasState)
    ensures |r.vars| == 0 && |r.types| == 0
  {
    NoAliases
  }
}

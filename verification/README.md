# RewriteClosureImports, modelled in Dafny

A model of the `Rewriter` of Closure Compiler's `RewriteClosureImports` pass. The pass canonicalises
the four Closure import forms — `goog.require`, `goog.requireType`, `goog.forwardDeclare` and
`goog.module.get` — into stable global names. It keeps two per-module alias tables:
`variablesToInline` for values and `typesToInline` for JSDoc types. It removes import statements,
inlines aliased NAME references, and rewrites aliased prefixes of JSDoc type names.

The model is functional:

- `Rewriter.AliasState` holds the two tables as immutable `map<string, string>`.
- Every handler returns an `Effect`. It holds the new tables, one tree `Action`, whether a change was
  reported, the type passed to `forwardDeclareType`, and a diagnostic.
- `Keep`, `DetachStatement`, `ReplaceWithQName` and `SetString` are the tree actions.
- `Env` supplies the module registry (`getModulesByGoogNamespace`) as a map and
  `ModuleRenaming.getGlobalName` as a function value. It also supplies the set of module kinds to
  rewrite in.
- A traversal (`Pass.Run`) is a sequence of events. Each event is either a visited node, with its
  enclosing module if any and the set of names declared in its scope, or the traversal leaving a
  module. A root node outside any module has no enclosing module, and the gate skips it (line 129).

Files:

- `wrappers.dfy`: `Option`, `Result`.
- `dotted_names.dfy`: `lastIndexOf('.')`, dot-aligned prefixes, `prefix.member`.
- `modules.dfy`: module kinds and metadata.
- `string_nodes.dfy`: NAME / STRING nodes and `safeSetString`.
- `jsdoc_refs.dfy`: the `JsDocRefReplacer` longest-prefix substitution.
- `rewriter.dfy`: the alias tables, the import, forward-declare, module-get and name handlers, `visit`, `exitModule`.
- `pass.dfy`: traversals, `process`, `hotSwapScript`, the gate.
- `scenarios.dfy`: how an import and a later use combine.
- `symbol_table.dfy`: the alias key format of the IDE symbol table.

Behaviour of the code that the model keeps:

- A `goog.module.get` call counts as alias filling whenever its parent is an assignment that is a
  statement of its own. The code never checks that the assignment's left side is a bare name.
- Some tree changes are not reported to a change scope:
  - Replacing a NAME with a qualified name (line 324) reports nothing.
  - Renaming a JSDoc STRING node reports nothing. Type nodes are not attached to the tree, so
    `safeSetString` finds no enclosing change scope (lines 339-342).
  - Renaming a NAME node that is already detached reports nothing, for the same reason (line 338).
    The model treats every visited NAME node as attached, so an in-place rename always reports.
- After an `INVALID_FORWARD_DECLARE` report, `visit` still rewrites the node's own JSDoc
  (lines 153-155). The early `return` only leaves `visitForwardDeclare`.
- The tables are cleared by the `exitModule` hook (lines 117-120), not by a scoped guard.

## Model

| member | source | states |
|---|---|---|
| `DottedNames.LastDot` | src/com/google/javascript/jscomp/RewriteClosureImports.java:399-400 | the index of the last `.` of a string, or none exactly when the string has no dot |
| `DottedNames.Qualify` | src/com/google/javascript/jscomp/RewriteClosureImports.java:219 | `global + "." + property` contains a dot and splits back, at a dot-aligned position, into its two parts |
| `JsDocRefs.AliasedPrefix` | src/com/google/javascript/jscomp/RewriteClosureImports.java:375-405 | walking prefixes from the longest down, cutting at the last dot, finds a dot-aligned aliased prefix with no longer aliased one, or proves none exists |
| `JsDocRefs.RewriteTypeName` | src/com/google/javascript/jscomp/RewriteClosureImports.java:370-405 | a type name is rewritten at its longest dot-aligned prefix that is a type alias, to the alias target followed by the untouched suffix; it is unchanged when no such prefix is aliased |
| `JsDocRefs.ReplaceTypeName` | src/com/google/javascript/jscomp/RewriteClosureImports.java:371-405 | the do/while loop over `prefixTypeName` and `suffix` hits exactly when some dot-aligned prefix is aliased, and its result is the longest-prefix rewrite |
| `JsDocRefs.RewriteTypeRef` | src/com/google/javascript/jscomp/RewriteClosureImports.java:382-397 | a STRING node of a type is set, through `safeSetString`, to its longest-prefix rewrite, and is untouched when nothing matches |
| `JsDocRefs.RewriteJsDoc` | src/com/google/javascript/jscomp/RewriteClosureImports.java:345-355 | every type reference of the JSDoc is rewritten independently; an empty type table leaves them as they are |
| `JsDocRefs.RewriteKeepsDottedSuffix` | src/com/google/javascript/jscomp/RewriteClosureImports.java:375-405 | every type name is either unchanged or rewritten at some dot-aligned aliased prefix to its target followed by a suffix that is empty or starts with `.` |
| `JsDocRefs.RewriteAtAlias` | src/com/google/javascript/jscomp/RewriteClosureImports.java:382-396 | `alias + suffix`, with no longer aliased prefix, becomes `target + suffix` |
| `JsDocRefs.NoAliasesNoRewrite` | src/com/google/javascript/jscomp/RewriteClosureImports.java:346-348 | without type aliases no type reference changes |
| `StringNodes.SafeSetString` | src/com/google/javascript/jscomp/RewriteClosureImports.java:328-337 | setting the same string is a no-op; a real change records the old text as original name only if none was recorded |
| `StringNodes.OriginalNameRecordedOnce` | src/com/google/javascript/jscomp/RewriteClosureImports.java:333-337 | after any chain of renames the original name is the text before the first real change, and none exactly when nothing changed |
| `Rewriter.BindSpecs` | src/com/google/javascript/jscomp/RewriteClosureImports.java:214-224 | destructuring adds exactly the aliases to both tables, each mapped to `global.property` of its last entry, and leaves every other key alone |
| `Rewriter.RewriteImport` | src/com/google/javascript/jscomp/RewriteClosureImports.java:158-230 | bare require: statement removed, values untouched, the namespace becomes a type alias only for goog.module and ES modules; ES module under a binding: tables untouched, the call becomes the global name; other bindings: both tables bind the names and the statement is removed; a change is always reported; any other parent is an internal error |
| `Rewriter.VisitRequire` | src/com/google/javascript/jscomp/RewriteClosureImports.java:232-237 | a registered namespace goes to the import rewrite; an unregistered one is an internal error |
| `Rewriter.VisitForwardDeclare` | src/com/google/javascript/jscomp/RewriteClosureImports.java:269-302 | not exactly one declared type: INVALID_FORWARD_DECLARE with tables and tree untouched; unregistered namespace: only the statement is removed; otherwise the same as goog.require plus the forward-declared type |
| `Rewriter.RewriteGoogModuleGet` | src/com/google/javascript/jscomp/RewriteClosureImports.java:239-259 | filling an alias removes the statement; any other use becomes the global name; the tables never change and a change is always reported |
| `Rewriter.VisitGoogModuleGet` | src/com/google/javascript/jscomp/RewriteClosureImports.java:239-266 | fails only outside alias filling when the namespace is unregistered; otherwise it always changes the tree (filling an alias removes the statement, any other use becomes the global name), reports the change, leaves the tables alone, and neither reports a diagnostic nor forward-declares a type |
| `Rewriter.MaybeInlineName` | src/com/google/javascript/jscomp/RewriteClosureImports.java:304-326 | a declared or unaliased name is kept; a dotted target replaces the name by a qualified name; a dotless target renames in place, keeping the first original name, and renaming to the same string is a no-op |
| `Rewriter.Dispatch` | src/com/google/javascript/jscomp/RewriteClosureImports.java:135-151 | goog.require and goog.requireType go to the require rewrite, goog.forwardDeclare and goog.module.get to their handlers, NAME nodes to name inlining, and other nodes change nothing; INVALID_FORWARD_DECLARE is reported exactly for a forward declare without exactly one type |
| `Rewriter.Visit` | src/com/google/javascript/jscomp/RewriteClosureImports.java:128-155 | outside a module, or in a module of a kind not configured, nothing happens; otherwise the node is handled first, and each JSDoc type reference is then set through `safeSetString` to its rewrite with the tables the node left, so its first original name is kept |
| `Rewriter.ExitModule` | src/com/google/javascript/jscomp/RewriteClosureImports.java:117-120 | leaving a module empties both tables |
| `Pass.Run` | src/com/google/javascript/jscomp/RewriteClosureImports.java:116-156 | a traversal yields one outcome per event, the tables are empty after every module exit, the final tables are those of the last event, and it stops only at an event whose step fails (with `Pass.RunFailsOnlyAtAFailingStep`) |
| `Pass.Process` | src/com/google/javascript/jscomp/RewriteClosureImports.java:82-89 | an empty set of kinds to rewrite in makes the pass a no-op; otherwise the externs are traversed, then the sources starting from the tables the externs left, and the outcomes are the externs' followed by the sources' |
| `Pass.RunFollowsSteps` | src/com/google/javascript/jscomp/RewriteClosureImports.java:122-156 | outcome `i` of a traversal is exactly the handling of event `i` in the tables that event `i - 1` left, so a later node sees the aliases earlier imports registered |
| `Pass.RunFailsOnlyAtAFailingStep` | src/com/google/javascript/jscomp/RewriteClosureImports.java:122-156 | a failed traversal has an event whose step fails in the tables the events before it left, and every event before it was handled successfully |
| `Pass.HotSwapScript` | src/com/google/javascript/jscomp/RewriteClosureImports.java:73-79 | an empty set of kinds to rewrite in makes the pass a no-op; otherwise the script is traversed |
| `Pass.ClosedGateIsInert` | src/com/google/javascript/jscomp/RewriteClosureImports.java:128-131 | when every visited node is gated off, no action, report or diagnostic happens, JSDoc is untouched and the tables are emptied at most |
| `Pass.EmptyConfigurationIsInert` | src/com/google/javascript/jscomp/RewriteClosureImports.java:54-59 | with no kinds to rewrite in, even a full traversal would change nothing |
| `Scenarios.BoundAliasIsInlined` | src/com/google/javascript/jscomp/RewriteClosureImports.java:193-202 | after `const a = goog.require('ns')` of a non-ES module, an unshadowed use of `a` becomes the global name |
| `Scenarios.ShadowedAliasIsKept` | src/com/google/javascript/jscomp/RewriteClosureImports.java:309-313 | a use of an imported alias under a local declaration of the same name is kept |
| `Scenarios.DestructuredAliasIsInlined` | src/com/google/javascript/jscomp/RewriteClosureImports.java:214-221 | after `const {p: a} = goog.require('ns')`, an unshadowed use of `a` becomes `global.p` |
| `Scenarios.BoundAliasInTypeRef` | src/com/google/javascript/jscomp/RewriteClosureImports.java:200-201 | after `const a = goog.require('ns')`, the JSDoc type `a.X` becomes `global.X` |
| `Scenarios.BareRequireNamespaceInTypeRef` | src/com/google/javascript/jscomp/RewriteClosureImports.java:171-178 | after a bare require of a goog.module or ES module, `ns.X` in JSDoc becomes `global.X`, and no value alias is added |
| `Scenarios.ForwardDeclareThenFill` | src/com/google/javascript/jscomp/RewriteClosureImports.java:242-250 | `let x = goog.forwardDeclare('ns')` of a registered non-ES module followed by `x = goog.module.get('ns')`: both statements are removed, and `x` stays bound to the global name in both tables |
| `Scenarios.RequireThenUseInOneTraversal` | src/com/google/javascript/jscomp/RewriteClosureImports.java:193-202 | a traversal of `const a = goog.require('ns')` followed by a use of `a` carrying the JSDoc type `a`: the require is removed, and both the use and the type become the global name |
| `Scenarios.NamespaceExample` | src/com/google/javascript/jscomp/RewriteClosureImports.java:373-381 | `{"ns": "module$exports$ns"}` turns `ns.Foo` into `module$exports$ns.Foo` |
| `Scenarios.AliasExamples` | src/com/google/javascript/jscomp/RewriteClosureImports.java:373-405 | `{"a": "pkg$a"}` turns `a.B.C` into `pkg$a.B.C` and leaves `z.a.B` alone |
| `SymbolTable.AliasSymbolName` | src/com/google/javascript/jscomp/RewriteClosureImports.java:446 | the key is `alias_`, then the module's global name, then `_`, then the local name |
| `SymbolTable.SameNameDifferentModules` | src/com/google/javascript/jscomp/RewriteClosureImports.java:439-446 | the same alias name in two different modules gets two different keys |
| `SymbolTable.SameModuleDifferentNames` | src/com/google/javascript/jscomp/RewriteClosureImports.java:446 | two different aliases of one module get two different keys |
| `SymbolTable.UnderscoreAmbiguity` | src/com/google/javascript/jscomp/RewriteClosureImports.java:446 | a different name in a different module can share a key: `("a", "b_c")` and `("a_b", "c")` |

## Left out

- The Rhino tree itself. `detach`, `replaceWith`, `NodeUtil.newQName`, `srcrefTree` and `getEnclosingStatement` are modelled as the `Action` a handler returns.
- `NodeTraversal` and `AbstractModuleCallback` are replaced by the event sequence of `Pass.Run`. Scope construction is replaced by the set of names declared in the visited node's scope.
- `ModuleRenaming.getGlobalName` is foreign, so it is a function value in `Env`. `ModuleMetadataMap` is a given map from namespace to module.
- Passing a null module to `getGlobalName` happens when a `goog.require` namespace, or a `goog.module.get` namespace outside alias filling, is unregistered. Its behaviour is foreign. It is modelled as the internal error `UnregisteredNamespace`, since an earlier check pass rejects such code.
- `MaybeInlineName`: does not model renaming a detached NAME node, which reports no change (line 338). Every visited NAME node is taken to be attached, so an in-place rename always reports a change.
- `checkState` failures are modelled as the internal error `UnexpectedParent`.
- The `checkState(importSpec.hasChildren())` at line 215 is not modelled: every `ImportSpec` carries its alias.
- `CodingConvention.identifyTypeDeclarationCall` is a given `Option<seq<string>>`. None stands for a null list. A null element inside the list is not modelled.
- `compiler.forwardDeclareType`, `reportChangeToChangeScope`, `reportCodeChange` and `report` are returned as fields of `Effect`.
- Only the key format of the IDE `PreprocessorSymbolTable` is modelled (lines 384-393, 410-449). That table is null by default. The rest of its bookkeeping is IDE-only and not modelled.
- Module kinds other than the four Closure-relevant ones, such as CommonJS or plain scripts, are not modelled.
- Re-running the pass on its own output is not modelled. The model does not produce an output tree to feed back in.

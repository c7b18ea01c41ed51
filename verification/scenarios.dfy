/**
 * How the pieces of the rewriter work together: an import registers aliases, and later uses of
 * those aliases, as values or inside JSDoc, are rewritten to the canonical names.
 */
module Scenarios {
  import opened Wrappers
  import opened DottedNames
  import opened Modules
  import opened StringNodes
  import opened JsDocRefs
  import opened Rewriter
  import opened Pass

  /**
   * `const a = goog.require('ns')` of a module that is not an ES module, then a use of `a` that
   * no local declaration shadows: the use becomes the global name of `ns`.
   */
  lemma BoundAliasIsInlined(env: Env, st: AliasState, ns: string, a: string, scope: set<string>,
                            use: StringNode)
    requires ns in env.registry && !IsEs6Module(env.registry[ns])
    requires use.text == a && a !in scope
    ensures VisitRequire(env, st, ns, NameBinding(a)).Success?
    ensures
      var g := env.globalName(env.registry[ns], ns);
      var e := MaybeInlineName(VisitRequire(env, st, ns, NameBinding(a)).value.aliases, scope, use);
      && ('.' in g ==> e.action == ReplaceWithQName(g))
      && ('.' !in g && g != a ==> e.action == SetString(SafeSetString(use, g)))
      && ('.' !in g && g == a ==> e.action == Keep)
  {
  }

  /** A use of the same name under a local declaration of it is never rewritten. */
  lemma ShadowedAliasIsKept(env: Env, st: AliasState, ns: string, a: string, scope: set<string>,
                            use: StringNode)
    requires ns in env.registry
    requires use.text == a && a in scope
    requires VisitRequire(env, st, ns, NameBinding(a)).Success?
    ensures MaybeInlineName(VisitRequire(env, st, ns, NameBinding(a)).value.aliases, scope, use).action
            == Keep
  {
  }

  /**
   * `const {p: a} = goog.require('ns')` of a module that is not an ES module, then an unshadowed
   * use of `a`: it becomes the qualified name `globalName.p` of the last entry binding `a`.
   */
  lemma DestructuredAliasIsInlined(env: Env, st: AliasState, ns: string, specs: seq<ImportSpec>,
                                   i: nat, scope: set<string>, use: StringNode)
    requires ns in env.registry && !IsEs6Module(env.registry[ns])
    requires i < |specs| && LastBinding(specs, i)
    requires use.text == specs[i].alias && use.text !in scope
    ensures VisitRequire(env, st, ns, Destructuring(specs)).Success?
    ensures
      var full := Qualify(env.globalName(env.registry[ns], ns), specs[i].property);
      MaybeInlineName(VisitRequire(env, st, ns, Destructuring(specs)).value.aliases, scope, use).action
        == ReplaceWithQName(full)
  {
  }

  /**
   * A type reference `a.X.Y` after `const a = goog.require('ns')` of a non-ES module, when no
   * longer prefix of it is a type alias, becomes `globalName.X.Y`.
   */
  lemma BoundAliasInTypeRef(env: Env, st: AliasState, ns: string, a: string, suffix: string)
    requires ns in env.registry && !IsEs6Module(env.registry[ns])
    requires suffix == [] || suffix[0] == '.'
    requires VisitRequire(env, st, ns, NameBinding(a)).Success?
    requires forall m: nat :: |a| < m <= |a + suffix| && DotAligned(a + suffix, m) ==>
      (a + suffix)[..m] !in VisitRequire(env, st, ns, NameBinding(a)).value.aliases.types
    ensures JsDocRefs.RewriteTypeName(VisitRequire(env, st, ns, NameBinding(a)).value.aliases.types,
                                      a + suffix)
            == env.globalName(env.registry[ns], ns) + suffix
  {
    var types := VisitRequire(env, st, ns, NameBinding(a)).value.aliases.types;
    RewriteAtAlias(types, a, suffix);
  }

  /**
   * A bare `goog.require('ns');` of a goog.module or ES module makes the namespace itself a
   * type alias: `ns.Foo` in JSDoc becomes `globalName.Foo` when nothing longer is aliased.
   */
  lemma BareRequireNamespaceInTypeRef(env: Env, st: AliasState, ns: string, suffix: string)
    requires ns in env.registry
    requires IsNonLegacyGoogModule(env.registry[ns]) || IsEs6Module(env.registry[ns])
    requires suffix == [] || suffix[0] == '.'
    requires forall m: nat :: |ns| < m <= |ns + suffix| && DotAligned(ns + suffix, m) ==>
      (ns + suffix)[..m] !in st.types
    ensures VisitRequire(env, st, ns, ExprResult).Success?
    ensures VisitRequire(env, st, ns, ExprResult).value.aliases.vars == st.vars
    ensures JsDocRefs.RewriteTypeName(VisitRequire(env, st, ns, ExprResult).value.aliases.types, ns + suffix)
            == env.globalName(env.registry[ns], ns) + suffix
  {
    var types := VisitRequire(env, st, ns, ExprResult).value.aliases.types;
    assert types == st.types[ns := env.globalName(env.registry[ns], ns)];
    forall m: nat | |ns| < m <= |ns + suffix| && DotAligned(ns + suffix, m)
      ensures (ns + suffix)[..m] !in types
    {
      assert |(ns + suffix)[..m]| != |ns|;
    }
    RewriteAtAlias(types, ns, suffix);
  }

  /** The alias table `{"ns": "module$exports$ns"}` turns `ns.Foo` into `module$exports$ns.Foo`. */
  lemma NamespaceExample()
    ensures RewriteTypeName(map["ns" := "module$exports$ns"], "ns.Foo") == "module$exports$ns.Foo"
  {
    var types := map["ns" := "module$exports$ns"];
    var s := "ns.Foo";
    assert s[..2] == "ns" && s[2..] == ".Foo";
    assert DotAligned(s, 2);
    forall m: nat | 2 < m && DotAligned(s, m)
      ensures s[..m] !in types
    {
      assert |s[..m]| != 2;
    }
  }

  /** The alias table `{"a": "pkg$a"}` turns `a.B.C` into `pkg$a.B.C` and leaves `z.a.B` alone. */
  lemma AliasExamples()
    ensures RewriteTypeName(map["a" := "pkg$a"], "a.B.C") == "pkg$a.B.C"
    ensures RewriteTypeName(map["a" := "pkg$a"], "z.a.B") == "z.a.B"
  {
    var types := map["a" := "pkg$a"];
    var s := "a.B.C";
    assert s[..1] == "a" && s[1..] == ".B.C";
    assert DotAligned(s, 1);
    forall m: nat | 1 < m && DotAligned(s, m)
      ensures s[..m] !in types
    {
      assert |s[..m]| != 1;
    }
    var t := "z.a.B";
    forall m: nat | DotAligned(t, m)
      ensures t[..m] !in types
    {
      if m == 1 {
        assert t[..m] == "z";
      } else {
        assert |t[..m]| != 1;
      }
    }
  }

  /**
   * `let x = goog.forwardDeclare('ns')` of a registered non-ES module, later filled by
   * `x = goog.module.get('ns')`: both statements are removed and `x` stays bound to the global name.
   */
  lemma ForwardDeclareThenFill(env: Env, st: AliasState, ns: string, x: string, declared: string)
    requires ns in env.registry && !IsEs6Module(env.registry[ns])
    ensures VisitForwardDeclare(env, st, ns, NameBinding(x), Some([declared])).Success?
    ensures
      var fd := VisitForwardDeclare(env, st, ns, NameBinding(x), Some([declared])).value;
      var get := VisitGoogModuleGet(env, fd.aliases, ns, FillingAnAlias);
      && fd.action == DetachStatement
      && fd.forwardDeclared == Some(declared)
      && get.Success?
      && get.value.action == DetachStatement
      && get.value.aliases.vars[x] == env.globalName(env.registry[ns], ns)
      && get.value.aliases.types[x] == env.globalName(env.registry[ns], ns)
  {
  }

  /**
   * The same import and use as a traversal of one module: the require statement is removed,
   * and the later NAME `a` and the JSDoc type `a` on it both become the global name.
   */
  lemma RequireThenUseInOneTraversal(env: Env, m: ModuleMetadata, ns: string, use: StringNode,
                                     scope: set<string>, ref: StringNode)
    requires m.kind in env.typesToRewriteIn
    requires ns in env.registry && !IsEs6Module(env.registry[ns])
    requires use.text !in scope && ref.text == use.text
    ensures
      var events := [VisitNode(Some(m), Require(ns, NameBinding(use.text)), {}, []),
                     VisitNode(Some(m), Name(use), scope, [ref])];
      var g := env.globalName(env.registry[ns], ns);
      && Run(env, NoAliases, events).Success?
      && Run(env, NoAliases, events).value.outcomes[0].effect.action == DetachStatement
      && ('.' in g ==> Run(env, NoAliases, events).value.outcomes[1].effect.action == ReplaceWithQName(g))
      && ('.' !in g && g != use.text ==>
            Run(env, NoAliases, events).value.outcomes[1].effect.action == SetString(SafeSetString(use, g)))
      && |Run(env, NoAliases, events).value.outcomes[1].typeRefs| == 1
      && Run(env, NoAliases, events).value.outcomes[1].typeRefs[0].text == g
  {
    var events := [VisitNode(Some(m), Require(ns, NameBinding(use.text)), {}, []),
                   VisitNode(Some(m), Name(use), scope, [ref])];
    var g := env.globalName(env.registry[ns], ns);
    var aliases := Bind(NoAliases, use.text, g);
    var first := Visit(env, NoAliases, Some(m), events[0].node, {}, []);
    assert first == Success(Outcome(Effect(aliases, DetachStatement, true, None, None), []));
    var second := Visit(env, aliases, Some(m), Name(use), scope, [ref]).value;
    assert |second.typeRefs| == 1;
    assert second.effect.aliases == aliases;
    assert Run(env, aliases, []) == Success(Trace(aliases, []));
    assert [second] + [] == [second];
    assert Step(env, aliases, events[1]) == Success(second);
    assert events[1..] == [events[1]];
    assert [events[1]][1..] == [];
    assert Run(env, aliases, [events[1]]) == Success(Trace(second.effect.aliases, [second]));
    RewriteAtAlias(aliases.types, use.text, []);
    assert use.text + [] == use.text;
  }
}

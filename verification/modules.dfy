/** Module metadata, as the module registry hands it to the rewriter. */
module Modules {

  /** The kinds of module a file can be. */
  datatype ModuleKind =
    | GoogProvide        // a script declaring namespaces with goog.provide
    | LegacyGoogModule   // a goog.module that calls goog.module.declareLegacyNamespace
    | GoogModule         // a goog.module without a legacy namespace
    | Es6Module          // an ES module that calls goog.declareModuleId

  /** A module: its kind and the Closure namespaces it owns, in declaration order. */
  datatype ModuleMetadata = ModuleMetadata(kind: ModuleKind, googNamespaces: seq<string>)

  predicate IsNonLegacyGoogModule(m: ModuleMetadata)
  {
    m.kind == GoogModule
  }

  predicate IsEs6Module(m: ModuleMetadata)
  {
    m.kind == Es6Module
  }
}

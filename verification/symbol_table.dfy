/** The key under which an import alias is recorded for IDE tooling. */
module SymbolTable {

  /** `alias_<module>_<name>`: the owning module's global name keeps aliases of different modules apart. */
  function AliasSymbolName(moduleGlobalName: string, localName: string): (r: string)
    ensures |r| == 6 + |moduleGlobalName| + 1 + |localName|
    ensures r[..6] == "alias_"
    ensures r[6..6 + |moduleGlobalName|] == moduleGlobalName
    ensures r[6 + |moduleGlobalName|] == '_'
    ensures r[|r| - |localName|..] == localName
  {
    "alias_" + moduleGlobalName + "_" + localName
  }

  /** Aliases of the same name in different modules get different keys. */
  lemma SameNameDifferentModules(m1: string, m2: string, name: string)
    requires m1 != m2
    ensures AliasSymbolName(m1, name) != AliasSymbolName(m2, name)
  {
  }

  /** Different aliases of one module get different keys. */
  lemma SameModuleDifferentNames(m: string, n1: string, n2: string)
    requires n1 != n2
    ensures AliasSymbolName(m, n1) != AliasSymbolName(m, n2)
  {
  }

  /** The format does not separate every (module, name) pair: an underscore can move between the two parts. */
  lemma UnderscoreAmbiguity()
    ensures AliasSymbolName("a", "b_c") == AliasSymbolName("a_b", "c")
  {
  }
}

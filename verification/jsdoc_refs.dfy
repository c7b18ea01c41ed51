/**
 * Rewriting of type references inside JSDoc. A type reference is a dotted string such as
 * `Alias.Sub.Field`; its longest dot-aligned prefix that is a type alias is replaced by the
 * alias's target, and the rest of the string is kept.
 */
module JsDocRefs {
  import opened Wrappers
  import opened DottedNames
  import opened StringNodes

  /**
   * The length of the longest dot-aligned prefix of `s`, no longer than `n`, that is a key of
   * `types`; prefixes are tried from `s[..n]` down, cutting at the last dot each time.
   */
  function AliasedPrefix(types: map<string, string>, s: string, n: nat): (r: Option<nat>)
    requires DotAligned(s, n)
    ensures r.Some? ==> r.value <= n && DotAligned(s, r.value) && s[..r.value] in types
    ensures r.Some? ==> forall m: nat :: r.value < m <= n && DotAligned(s, m) ==> s[..m] !in types
    ensures r.None? ==> forall m: nat :: m <= n && DotAligned(s, m) ==> s[..m] !in types
    decreases n
  {
    if s[..n] in types then Some(n)
    else
      match LastDot(s[..n])
      case None => None
      case Some(i) =>
        assert s[..n][i] == s[i];
        AliasedPrefix(types, s, i)
  }

  /**
   * The type name `s` after alias substitution: the target of its longest aliased dot-aligned
   * prefix followed by the untouched rest, or `s` itself when no such prefix is aliased.
   */
  function RewriteTypeName(types: map<string, string>, s: string): (r: string)
    ensures (forall m: nat :: DotAligned(s, m) ==> s[..m] !in types) ==> r == s
    ensures forall k: nat :: DotAligned(s, k) && s[..k] in types
                        && (forall m: nat :: k < m && DotAligned(s, m) ==> s[..m] !in types)
                        ==> r == types[s[..k]] + s[k..]
  {
    match AliasedPrefix(types, s, |s|)
    case None => s
    case Some(k) => types[s[..k]] + s[k..]
  }

  /**
   * The replacer's loop over one type name: try the whole name, then ever shorter prefixes cut
   * at the last dot, until one is a type alias. Returns the rewritten name, or None on no hit.
   */
  method ReplaceTypeName(types: map<string, string>, typeName: string) returns (replacement: Option<string>)
    ensures replacement.None? <==> forall m: nat :: DotAligned(typeName, m) ==> typeName[..m] !in types
    ensures replacement.Some? ==> replacement.value == RewriteTypeName(types, typeName)
  {
    var prefixTypeName := typeName;
    var suffix := "";
    ghost var n: nat := |typeName|;
    while prefixTypeName !in types && '.' in prefixTypeName
      invariant n <= |typeName| && DotAligned(typeName, n)
      invariant prefixTypeName == typeName[..n] && suffix == typeName[n..]
      invariant forall m: nat :: n < m && DotAligned(typeName, m) ==> typeName[..m] !in types
      decreases |prefixTypeName|
    {
      var i := LastDot(prefixTypeName).value;
      assert typeName[..n][i] == typeName[i];
      forall m: nat | i < m < n
        ensures !DotAligned(typeName, m)
      {
        assert typeName[..n][m] == typeName[m];
      }
      prefixTypeName := prefixTypeName[..i];
      n := i;
      suffix := typeName[|prefixTypeName|..];
    }
    if prefixTypeName in types {
      replacement := Some(types[prefixTypeName] + suffix);
    } else {
      forall m: nat | m < n
        ensures !DotAligned(typeName, m)
      {
        assert typeName[..n][m] == typeName[m];
      }
      replacement := None;
    }
  }

  /** One STRING node of a JSDoc type expression after alias substitution. */
  function RewriteTypeRef(types: map<string, string>, ref: StringNode): (r: StringNode)
    ensures r.text == RewriteTypeName(types, ref.text)
    ensures r == SafeSetString(ref, RewriteTypeName(types, ref.text))
  {
    var s := ref.text;
    match AliasedPrefix(types, s, |s|)
    case None => ref
    case Some(k) => SafeSetString(ref, types[s[..k]] + s[k..])
  }

  /** All type references of a node's JSDoc after alias substitution; nothing to do without type aliases. */
  function RewriteJsDoc(types: map<string, string>, refs: seq<StringNode>): (r: seq<StringNode>)
    ensures |r| == |refs|
    ensures forall i :: 0 <= i < |refs| ==>
      r[i] == SafeSetString(refs[i], RewriteTypeName(types, refs[i].text))
  {
    if |types| == 0 then
      assert forall i :: 0 <= i < |refs| ==> RewriteTypeName(types, refs[i].text) == refs[i].text;
      refs
    else seq(|refs|, i requires 0 <= i < |refs| => RewriteTypeRef(types, refs[i]))
  }

  /**
   * Every type name is either left alone or rewritten at some aliased prefix, keeping a suffix
   * that is empty or starts at a dot.
   */
  lemma RewriteKeepsDottedSuffix(types: map<string, string>, s: string)
    ensures || RewriteTypeName(types, s) == s
            || exists k: nat :: && DotAligned(s, k)
                                && s[..k] in types
                                && RewriteTypeName(types, s) == types[s[..k]] + s[k..]
                                && (s[k..] == [] || s[k..][0] == '.')
  {
  }

  /**
   * A reference that starts with an alias, and whose longer dot-aligned prefixes are not
   * aliases, is rewritten at the alias.
   */
  lemma RewriteAtAlias(types: map<string, string>, alias: string, suffix: string)
    requires alias in types
    requires suffix == [] || suffix[0] == '.'
    requires forall m: nat :: |alias| < m <= |alias + suffix| && DotAligned(alias + suffix, m) ==>
      (alias + suffix)[..m] !in types
    ensures RewriteTypeName(types, alias + suffix) == types[alias] + suffix
  {
    var s := alias + suffix;
    assert s[..|alias|] == alias && s[|alias|..] == suffix;
    assert DotAligned(s, |alias|);
  }

  /** No type aliases: every type reference stays as it is. */
  lemma NoAliasesNoRewrite(refs: seq<StringNode>)
    ensures RewriteJsDoc(map[], refs) == refs
  {
  }
}

/** Nodes that carry a string: NAME nodes of the tree and STRING nodes of JSDoc type expressions. */
module StringNodes {
  import opened Wrappers

  /** The node's text, and the name it had before the compiler first renamed it. */
  datatype StringNode = StringNode(text: string, originalName: Option<string>)

  /** Sets the node's text to `newString`. A real change keeps the very first name as the original one. */
  function SafeSetString(n: StringNode, newString: string): (r: StringNode)
    ensures r.text == newString
    ensures newString == n.text ==> r == n
    ensures newString != n.text && n.originalName.None? ==> r.originalName == Some(n.text)
    ensures n.originalName.Some? ==> r.originalName == n.originalName
  {
    if n.text == newString then n
    else StringNode(newString, if n.originalName.None? then Some(n.text) else n.originalName)
  }

  /** The node after the renames `names`, applied in order. */
  function RenameAll(n: StringNode, names: seq<string>): StringNode
    decreases |names|
  {
    if |names| == 0 then n else RenameAll(SafeSetString(n, names[0]), names[1..])
  }

  /** However often a node is renamed, its original name is the text it had before the first real change. */
  lemma {:induction false} OriginalNameRecordedOnce(n: StringNode, names: seq<string>)
    ensures n.originalName.Some? ==> RenameAll(n, names).originalName == n.originalName
    ensures n.originalName.None? ==>
      (RenameAll(n, names).originalName.None? <==> forall i :: 0 <= i < |names| ==> names[i] == n.text)
    ensures n.originalName.None? && RenameAll(n, names).originalName.Some? ==>
      RenameAll(n, names).originalName == Some(n.text)
    ensures |names| > 0 ==> RenameAll(n, names).text == names[|names| - 1]
    decreases |names|
  {
    if |names| > 0 {
      var n1 := SafeSetString(n, names[0]);
      OriginalNameRecordedOnce(n1, names[1..]);
      if n.originalName.None? && names[0] == n.text {
        assert n1 == n;
        forall i | 0 <= i < |names| - 1
          ensures names[1..][i] == names[i + 1]
        {
        }
      }
    }
  }
}

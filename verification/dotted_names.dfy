/** Dotted qualified names: `a.b.c` is a sequence of segments joined by `.`. */
module DottedNames {
  import opened Wrappers

  /** The index of the last `.` of `s` (Java's `s.lastIndexOf('.')`), or None when `s` has no dot. */
  function LastDot(s: string): (r: Option<nat>)
    ensures r.None? <==> '.' !in s
    ensures r.None? ==> forall j :: 0 <= j < |s| ==> s[j] != '.'
    ensures r.Some? ==> r.value < |s| && s[r.value] == '.'
    ensures r.Some? ==> forall j :: r.value < j < |s| ==> s[j] != '.'
    decreases |s|
  {
    if |s| == 0 then None
    else if s[|s| - 1] == '.' then Some(|s| - 1)
    else
      var r := LastDot(s[..|s| - 1]);
      assert s == s[..|s| - 1] + [s[|s| - 1]];
      r
  }

  /** `s[..n]` is a dot-aligned prefix of `s`: the whole of `s`, or the part before one of its dots. */
  predicate DotAligned(s: string, n: nat)
  {
    n == |s| || (n < |s| && s[n] == '.')
  }

  /** `prefix.member`, the name of a property of the object named `prefix`. */
  function Qualify(prefix: string, member: string): (r: string)
    ensures '.' in r
    ensures |r| == |prefix| + 1 + |member|
    ensures DotAligned(r, |prefix|)
    ensures r[..|prefix|] == prefix && r[|prefix| + 1..] == member
  {
    var r := prefix + "." + member;
    assert r[|prefix|] == '.';
    r
  }
}

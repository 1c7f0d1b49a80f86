/** Paths as text: segments between slashes, followed from a directory. */
module PathText {
  function FirstSlash(s: string): (i: nat)
    ensures i <= |s| && (i < |s| ==> s[i] == '/')
  {
    if s == "" || s[0] == '/' then 0 else 1 + FirstSlash(s[1..])
  }

  function Segments(s: string): seq<string> {
    var i := FirstSlash(s);
    if i == |s| then [s] else [s[..i]] + Segments(s[i + 1..])
  }

  /** Take one step from a directory, given as the names from the root down. */
  function Enter(dir: seq<string>, segment: string): seq<string> {
    if segment == "" || segment == "." then dir
    else if segment == ".." then (if dir == [] then [] else dir[..|dir| - 1])
    else dir + [segment]
  }

  function Walk(dir: seq<string>, segments: seq<string>): seq<string>
    decreases |segments|
  {
    if |segments| == 0 then dir else Walk(Enter(dir, segments[0]), segments[1..])
  }

  /** Where a path leads from a directory. */
  function Resolve(dir: seq<string>, path: string): seq<string> {
    Walk(dir, Segments(path))
  }

  predicate NoSlash(s: string) {
    forall i :: 0 <= i < |s| ==> s[i] != '/'
  }

  /** A name that an entry of a directory can have. */
  predicate IsName(s: string) {
    s != "" && s != "." && s != ".." && NoSlash(s)
  }

  lemma {:induction false} SlashAfter(a: string, rest: string)
    requires NoSlash(a)
    ensures FirstSlash(a + "/" + rest) == |a|
  {
    if a != "" {
      SlashAfter(a[1..], rest);
      assert (a + "/" + rest)[1..] == a[1..] + "/" + rest;
    }
  }

  lemma NoFirstSlash(a: string)
    requires NoSlash(a)
    ensures FirstSlash(a) == |a|
  {
  }

  /** A path that starts with a segment is followed segment by segment. */
  lemma ResolveSegment(dir: seq<string>, a: string, rest: string)
    requires NoSlash(a)
    ensures Resolve(dir, a + "/" + rest) == Resolve(Enter(dir, a), rest)
  {
    var s := a + "/" + rest;
    SlashAfter(a, rest);
    assert s[..|a|] == a && s[|a| + 1..] == rest;
    assert ([a] + Segments(rest))[1..] == Segments(rest);
  }

  lemma ResolveLast(dir: seq<string>, a: string)
    requires NoSlash(a)
    ensures Resolve(dir, a) == Enter(dir, a)
  {
    NoFirstSlash(a);
    assert Segments(a) == [a];
    OneSegment(dir, a, [a]);
  }

  lemma OneSegment(dir: seq<string>, a: string, segments: seq<string>)
    requires segments == [a]
    ensures Walk(dir, segments) == Enter(dir, a)
  {
  }
}

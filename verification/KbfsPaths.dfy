/** Paths in KBFS as the file system service takes and prints them (fsrpc/path.go). */
module KbfsPaths {
  import opened Outcomes
  import opened PathText

  const TOP := "keybase"
  const PUBLIC := "public"
  const PRIVATE := "private"

  datatype Path =
    | Invalid
    | Root
    | Keybase
    | KeybaseChild(pub: bool)
    | TLF(pub: bool, name: string, components: seq<string>)

  // ---------- Text ----------

  /** Components joined with slashes. */
  function Joined(cs: seq<string>): string {
    if |cs| == 0 then "" else if |cs| == 1 then cs[0] else cs[0] + "/" + Joined(cs[1..])
  }

  predicate IsAbsolute(s: string) {
    s != "" && s[0] == '/'
  }

  /** The shortest text for an absolute path: no empty, "." and ".." segments. */
  function Clean(s: string): string
    requires IsAbsolute(s)
  {
    "/" + Joined(Resolve([], s))
  }

  function LastSlash(s: string): (i: nat)
    requires IsAbsolute(s)
    ensures i < |s| && s[i] == '/' && forall j :: i < j < |s| ==> s[j] != '/'
  {
    if s[|s| - 1] == '/' then |s| - 1
    else
      assert s == s[..|s| - 1] + [s[|s| - 1]];
      LastSlash(s[..|s| - 1])
  }

  /** The components of a clean path, from the last one back. */
  function SplitHelper(s: string): seq<string>
    requires IsAbsolute(s)
  {
    var i := LastSlash(s);
    var parent, child := s[..i], s[i + 1..];
    (if parent != "" then SplitHelper(parent) else []) + (if child != "" then [child] else [])
  }

  predicate AreNames(cs: seq<string>) {
    forall i :: 0 <= i < |cs| ==> IsName(cs[i])
  }

  lemma {:induction false} JoinedMore(cs: seq<string>, x: string)
    requires |cs| > 0
    ensures Joined(cs + [x]) == Joined(cs) + "/" + x
  {
    if |cs| == 1 {
      assert (cs + [x])[1..] == [x];
    } else {
      JoinedMore(cs[1..], x);
      assert (cs + [x])[1..] == cs[1..] + [x];
    }
  }

  lemma SplitLast(s: string, child: string)
    requires IsAbsolute(s) && NoSlash(child) && child != ""
    ensures SplitHelper(s + "/" + child) == SplitHelper(s) + [child]
  {
    var t := s + "/" + child;
    assert t[|s|] == '/';
    assert LastSlash(t) == |s|;
    assert t[..|s|] == s && t[|s| + 1..] == child;
  }

  /** Splitting undoes joining. */
  lemma {:induction false} SplitUndoesJoin(cs: seq<string>)
    requires AreNames(cs)
    ensures SplitHelper("/" + Joined(cs)) == cs
  {
    if |cs| == 0 {
      assert "/" + Joined(cs) == "/";
      OnlySlash("/" + Joined(cs));
    } else if |cs| == 1 {
      FirstName("/" + cs[0], cs[0]);
    } else {
      var p, x := cs[..|cs| - 1], cs[|cs| - 1];
      assert cs == p + [x];
      SplitUndoesJoin(p);
      SplitOneMore(p, x, cs);
    }
  }

  lemma SplitOneMore(p: seq<string>, x: string, cs: seq<string>)
    requires |p| > 0 && cs == p + [x] && IsName(x) && SplitHelper("/" + Joined(p)) == p
    ensures SplitHelper("/" + Joined(cs)) == cs
  {
    var s, t := "/" + Joined(p), "/" + Joined(cs);
    SlashJoinedMore(p, x);
    SplitStep(s, t, x);
  }

  lemma SlashJoinedMore(p: seq<string>, x: string)
    requires |p| > 0
    ensures "/" + Joined(p + [x]) == "/" + Joined(p) + "/" + x
  {
    JoinedMore(p, x);
  }

  lemma SplitStep(s: string, t: string, x: string)
    requires IsAbsolute(s) && t == s + "/" + x && IsName(x)
    ensures IsAbsolute(t) && SplitHelper(t) == SplitHelper(s) + [x]
  {
    SplitLast(s, x);
  }

  lemma OnlySlash(s: string)
    requires |s| == 1 && s[0] == '/'
    ensures |SplitHelper(s)| == 0
  {
  }

  lemma FirstName(s: string, x: string)
    requires s == "/" + x && IsName(x)
    ensures SplitHelper(s) == [x]
  {
  }

  lemma {:induction false} ResolveJoined(dir: seq<string>, cs: seq<string>)
    requires AreNames(cs)
    ensures Resolve(dir, Joined(cs)) == dir + cs
    decreases |cs|
  {
    if |cs| == 0 {
      ResolveLast(dir, Joined(cs));
      assert dir + cs == dir;
    } else if |cs| == 1 {
      ResolveLast(dir, cs[0]);
      assert [cs[0]] == cs;
    } else {
      ResolveSegment(dir, cs[0], Joined(cs[1..]));
      ResolveJoined(dir + [cs[0]], cs[1..]);
      assert dir + [cs[0]] + cs[1..] == dir + cs;
    }
  }

  lemma ResolveRooted(cs: seq<string>)
    requires AreNames(cs)
    ensures Resolve([], "/" + Joined(cs)) == cs
  {
    assert "/" + Joined(cs) == "" + "/" + Joined(cs);
    ResolveSegment([], "", Joined(cs));
    ResolveJoined([], cs);
    assert [] + cs == cs;
  }

  lemma {:induction false} SegmentsAreNames(s: string)
    ensures forall i :: 0 <= i < |Segments(s)| ==> NoSlash(Segments(s)[i])
  {
    var i := FirstSlash(s);
    BeforeFirstSlash(s);
    if i < |s| {
      SegmentsAreNames(s[i + 1..]);
    }
  }

  lemma {:induction false} BeforeFirstSlash(s: string)
    ensures NoSlash(s[..FirstSlash(s)])
  {
    if s != "" && s[0] != '/' {
      BeforeFirstSlash(s[1..]);
      assert s[..FirstSlash(s)] == [s[0]] + s[1..][..FirstSlash(s[1..])];
    }
  }

  lemma {:induction false} WalkIsNames(dir: seq<string>, segments: seq<string>)
    requires AreNames(dir) && forall i :: 0 <= i < |segments| ==> NoSlash(segments[i])
    ensures AreNames(Walk(dir, segments))
    decreases |segments|
  {
    if |segments| > 0 {
      WalkIsNames(Enter(dir, segments[0]), segments[1..]);
    }
  }

  /** A cleaned path has the components it cleaned up to, and cleaning it again changes nothing. */
  lemma CleanComponents(s: string)
    requires IsAbsolute(s)
    ensures AreNames(Resolve([], s)) && SplitHelper(Clean(s)) == Resolve([], s) && Clean(Clean(s)) == Clean(s)
  {
    SegmentsAreNames(s);
    WalkIsNames([], Segments(s));
    SplitUndoesJoin(Resolve([], s));
    ResolveRooted(Resolve([], s));
  }

  // ---------- Paths ----------

  function OfComponents(cs: seq<string>): Result<Path> {
    if (|cs| >= 1 && cs[0] != TOP) || (|cs| >= 2 && cs[1] != PUBLIC && cs[1] != PRIVATE) then Err
    else if |cs| == 0 then Ok(Root)
    else if |cs| == 1 then Ok(Keybase)
    else
      var pub := cs[1] == PUBLIC;
      if |cs| == 2 then Ok(KeybaseChild(pub)) else Ok(TLF(pub, cs[2], cs[3..]))
  }

  function NewPath(s: string): Result<Path> {
    if !IsAbsolute(s) then Err else OfComponents(SplitHelper(Clean(s)))
  }

  function Components(p: Path): seq<string>
    requires !p.Invalid?
  {
    (if p.Root? then [] else [TOP])
    + (if p.KeybaseChild? || p.TLF? then [if p.pub then PUBLIC else PRIVATE] else [])
    + (if p.TLF? then [p.name] + p.components else [])
  }

  function ToString(p: Path): string {
    if p.Invalid? then "" else "/" + Joined(Components(p))
  }

  /** The empty string stands for the invalid path and no other. */
  lemma InvalidIsEmpty(p: Path)
    ensures ToString(p) == "" <==> p.Invalid?
  {
  }

  /** The names in the path are clean. */
  predicate HasNames(p: Path) {
    p.TLF? ==> IsName(p.name) && AreNames(p.components)
  }

  /** The path made from components has them, and is the only clean one that does. */
  lemma OfComponentsIs(cs: seq<string>, p: Path)
    ensures OfComponents(cs) == Ok(p) <==> !p.Invalid? && Components(p) == cs
  {
    if !p.Invalid? && Components(p) == cs {
      assert p.TLF? ==> cs[3..] == p.components;
    }
    if OfComponents(cs) == Ok(p) {
      assert |cs| >= 3 ==> cs == [cs[0]] + [cs[1]] + ([cs[2]] + cs[3..]);
    }
  }

  /** Reading back the text of a path gives the path. */
  lemma RoundTrip(p: Path)
    requires !p.Invalid? && HasNames(p)
    ensures NewPath(ToString(p)) == Ok(p)
  {
    var cs := Components(p);
    assert AreNames(cs);
    ResolveRooted(cs);
    SplitUndoesJoin(cs);
    OfComponentsIs(cs, p);
  }

  /** The text of a path that was read is the cleaned text it was read from, and its names are clean. */
  lemma ToStringIsClean(s: string)
    requires NewPath(s).Ok?
    ensures var p := NewPath(s).value; !p.Invalid? && HasNames(p) && ToString(p) == Clean(s)
  {
    CleanComponents(s);
    var p, cs := NewPath(s).value, Resolve([], s);
    OfComponentsIs(cs, p);
    if p.TLF? {
      assert cs[2] == p.name && cs[3..] == p.components;
    }
  }

  // ---------- Parents and children ----------

  datatype Split = Split(dir: Path, basename: string)

  function DirAndBasename(p: Path): Result<Split> {
    match p
    case Keybase => Ok(Split(Root, TOP))
    case KeybaseChild(pub) => Ok(Split(Keybase, if pub then PUBLIC else PRIVATE))
    case TLF(pub, name, cs) =>
      if |cs| == 0 then Ok(Split(KeybaseChild(pub), name))
      else Ok(Split(TLF(pub, name, cs[..|cs| - 1]), cs[|cs| - 1]))
    case _ => Err
  }

  function Join(p: Path, child: string): Result<Path> {
    match p
    case Root => if child == TOP then Ok(Keybase) else Err
    case Keybase => if child == PUBLIC || child == PRIVATE then Ok(KeybaseChild(child == PUBLIC)) else Err
    case KeybaseChild(pub) => Ok(TLF(pub, child, []))
    case TLF(pub, name, cs) => Ok(TLF(pub, name, cs + [child]))
    case Invalid => Err
  }

  /** Taking a path apart is the inverse of joining a name to it. */
  lemma JoinInverse(p: Path, child: string, q: Path)
    ensures Join(p, child) == Ok(q) <==> DirAndBasename(q) == Ok(Split(p, child))
  {
    if q.TLF? && |q.components| > 0 {
      assert q.components == q.components[..|q.components| - 1] + [q.components[|q.components| - 1]];
    }
    if p.TLF? {
      assert (p.components + [child])[..|p.components|] == p.components;
    }
  }

  /** In text, joining appends the name. */
  lemma JoinAppends(p: Path, child: string)
    requires Join(p, child).Ok?
    ensures Components(Join(p, child).value) == Components(p) + [child]
  {
  }
}

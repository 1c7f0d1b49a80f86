/** The symlinks that stand in for directories renamed on both branches (libkbfs/conflict_resolver.go). */
module RenameLinks {
  import opened Outcomes
  import opened Ops
  import opened PathText

  // ---------- The text of the links ----------

  function Ups(k: nat): string {
    if k == 0 then "" else "../" + Ups(k - 1)
  }

  lemma {:induction false} UpsMore(k: nat)
    ensures Ups(k + 1) == Ups(k) + "../"
  {
    if k > 0 {
      UpsMore(k - 1);
      assert "../" + (Ups(k - 1) + "../") == "../" + Ups(k - 1) + "../";
    }
  }

  function Downs(names: seq<string>): string {
    if |names| == 0 then "" else names[0] + "/" + Downs(names[1..])
  }

  lemma {:induction false} DownsMore(names: seq<string>, x: string)
    ensures Downs(names + [x]) == Downs(names) + (x + "/")
  {
    if |names| > 0 {
      DownsMore(names[1..], x);
      assert (names + [x])[1..] == names[1..] + [x];
      assert names[0] + "/" + (Downs(names[1..]) + (x + "/")) == names[0] + "/" + Downs(names[1..]) + (x + "/");
    } else {
      assert |(names + [x])[1..]| == 0;
    }
  }

  lemma {:induction false} GoUp(dir: seq<string>, k: nat, rest: string)
    requires k <= |dir|
    ensures Resolve(dir, Ups(k) + rest) == Resolve(dir[..|dir| - k], rest)
  {
    if k == 0 {
      assert Ups(k) + rest == rest && dir[..|dir| - k] == dir;
    } else {
      var up := dir[..|dir| - 1];
      assert Ups(k) + rest == ".." + "/" + (Ups(k - 1) + rest);
      ResolveSegment(dir, "..", Ups(k - 1) + rest);
      GoUp(up, k - 1, rest);
      assert up[..|up| - (k - 1)] == dir[..|dir| - k];
    }
  }

  lemma DownsFirst(names: seq<string>, rest: string)
    requires |names| > 0
    ensures Downs(names) + rest == names[0] + "/" + (Downs(names[1..]) + rest)
  {
  }

  lemma {:induction false} GoDown(dir: seq<string>, names: seq<string>, rest: string)
    requires forall i :: 0 <= i < |names| ==> IsName(names[i])
    ensures Resolve(dir, Downs(names) + rest) == Resolve(dir + names, rest)
    decreases |names|
  {
    if |names| == 0 {
      assert Downs(names) + rest == rest && dir + names == dir;
    } else {
      var tail := names[1..];
      DownsFirst(names, rest);
      ResolveSegment(dir, names[0], Downs(tail) + rest);
      GoDown(dir + [names[0]], tail, rest);
      assert dir + [names[0]] + tail == dir + names;
    }
  }

  lemma FromHere(dir: seq<string>, rest: string)
    ensures Resolve(dir, "./" + rest) == Resolve(dir, rest)
  {
    assert "./" + rest == "." + "/" + rest;
    ResolveSegment(dir, ".", rest);
  }

  /** Up k levels, down through the names, and to the last one. */
  function LinkText(k: nat, names: seq<string>, last: string): string {
    "./" + (Ups(k) + (Downs(names) + last))
  }

  lemma LinkResolves(dir: seq<string>, k: nat, names: seq<string>, last: string)
    requires k <= |dir| && IsName(last) && forall i :: 0 <= i < |names| ==> IsName(names[i])
    ensures Resolve(dir, LinkText(k, names, last)) == dir[..|dir| - k] + names + [last]
  {
    FromHere(dir, Ups(k) + (Downs(names) + last));
    GoUp(dir, k, Downs(names) + last);
    GoDown(dir[..|dir| - k], names, last);
    ResolveLast(dir[..|dir| - k] + names, last);
  }

  lemma UpLinkResolves(dir: seq<string>, k: nat)
    requires k <= |dir|
    ensures Resolve(dir, "./" + Ups(k)) == dir[..|dir| - k]
  {
    FromHere(dir, Ups(k));
    GoUp(dir, k, "");
    assert Ups(k) + "" == Ups(k);
    ResolveLast(dir[..|dir| - k], "");
  }

  // ---------- Paths ----------

  datatype PathNode = PathNode(ptr: BlockPointer, name: string)

  type Path = seq<PathNode>

  function Names(p: Path): (names: seq<string>)
    ensures |names| == |p|
    ensures forall i :: 0 <= i < |p| ==> names[i] == p[i].name
  {
    seq(|p|, i requires 0 <= i < |p| => p[i].name)
  }

  // ---------- A rename into itself ----------

  datatype CycleFix =
    | NoMergedPath
    | NoCycle
    | Linked(symPath: string, parent: Path, x: nat)

  /** A directory was renamed into the directory at the end of the unmerged path.  Look backward along that path for a
      directory with a merged path, and on that for the renamed directory; original takes merged pointers to the first
      ones.  parent is the full merged path of the new parent. */
  method FixCycle(unmergedPath: Path, mergedPaths: map<BlockPointer, Path>, original: BlockPointer -> BlockPointer,
                  ptr: BlockPointer)
    returns (fix: CycleFix)
    ensures fix.NoMergedPath? <==> forall i :: 0 <= i < |unmergedPath| ==> unmergedPath[i].ptr !in mergedPaths
    ensures fix.NoMergedPath? || exists i :: ParentPath(unmergedPath, mergedPaths, i)
    ensures forall i :: ParentPath(unmergedPath, mergedPaths, i) ==>
              Fixed(fix, mergedPaths[unmergedPath[i].ptr], unmergedPath[i + 1..], original, ptr)
  {
    var i := LastWithMergedPath(unmergedPath, mergedPaths);
    if i < 0 {
      return NoMergedPath;
    }
    fix := FixAt(mergedPaths[unmergedPath[i].ptr], unmergedPath[i + 1..], original, ptr);
    assert forall j :: ParentPath(unmergedPath, mergedPaths, j) ==> j == i;
  }

  /** Look for the renamed directory on the merged path; below is the unmerged path from there on. */
  method FixAt(merged: Path, below: Path, original: BlockPointer -> BlockPointer, ptr: BlockPointer)
    returns (fix: CycleFix)
    ensures !fix.NoMergedPath? && Fixed(fix, merged, below, original, ptr)
  {
    var unmergedWalkBack := |below|;
    var x := FirstWith(merged, original, ptr);
    if x == |merged| {
      return NoCycle;
    }
    var mergedWalkBack := |merged| - 1 - x;
    CycleLink(merged, below, x);
    return Linked("./" + Ups(unmergedWalkBack + mergedWalkBack), merged + below, x);
  }

  /** There is no cycle exactly if the renamed directory is not on the merged path.  Else the link, put where the
      merged path and the rest of the unmerged one lead, resolves to it. */
  ghost predicate Fixed(fix: CycleFix, merged: Path, below: Path, original: BlockPointer -> BlockPointer,
                        ptr: BlockPointer)
  {
    && (fix.NoCycle? <==> forall x :: 0 <= x < |merged| ==> original(merged[x].ptr) != ptr)
    && (fix.Linked? ==>
          && fix.parent == merged + below
          && fix.x < |merged| && original(merged[fix.x].ptr) == ptr
          && Resolve(Names(fix.parent), fix.symPath) == Names(fix.parent[..fix.x + 1]))
  }

  lemma CycleLink(merged: Path, below: Path, x: nat)
    requires x < |merged|
    ensures var parent := merged + below;
            Resolve(Names(parent), "./" + Ups(|below| + (|merged| - 1 - x))) == Names(parent[..x + 1])
  {
    var parent := merged + below;
    UpLinkResolves(Names(parent), |below| + (|merged| - 1 - x));
    NamesPrefix(parent, x + 1);
  }

  method LastWithMergedPath(unmergedPath: Path, mergedPaths: map<BlockPointer, Path>) returns (i: int)
    ensures -1 <= i < |unmergedPath|
    ensures if i < 0 then forall j :: 0 <= j < |unmergedPath| ==> unmergedPath[j].ptr !in mergedPaths
            else ParentPath(unmergedPath, mergedPaths, i)
  {
    i := |unmergedPath| - 1;
    while i >= 0 && unmergedPath[i].ptr !in mergedPaths
      invariant -1 <= i < |unmergedPath|
      invariant forall j :: i < j < |unmergedPath| ==> unmergedPath[j].ptr !in mergedPaths
    {
      i := i - 1;
    }
  }

  method FirstWith(merged: Path, original: BlockPointer -> BlockPointer, ptr: BlockPointer) returns (x: nat)
    ensures x <= |merged| && (x < |merged| ==> original(merged[x].ptr) == ptr)
    ensures forall y :: 0 <= y < x ==> original(merged[y].ptr) != ptr
  {
    x := 0;
    while x < |merged| && original(merged[x].ptr) != ptr
      invariant x <= |merged|
      invariant forall y :: 0 <= y < x ==> original(merged[y].ptr) != ptr
    {
      x := x + 1;
    }
  }

  /** The last directory of the unmerged path that has a merged path is at i. */
  predicate ParentPath(unmergedPath: Path, mergedPaths: map<BlockPointer, Path>, i: int) {
    && 0 <= i < |unmergedPath| && unmergedPath[i].ptr in mergedPaths
    && forall j :: i < j < |unmergedPath| ==> unmergedPath[j].ptr !in mergedPaths
  }

  // ---------- Renames on both branches ----------

  /** The first place on the path with the pointer, from j on. */
  function Find(p: Path, ptr: BlockPointer, j: nat): (r: Option<nat>)
    requires j <= |p|
    ensures r.Some? ==> j <= r.value < |p| && p[r.value].ptr == ptr
    ensures forall i :: j <= i < (if r.Some? then r.value else |p|) ==> p[i].ptr != ptr
    decreases |p| - j
  {
    if j == |p| then None else if p[j].ptr == ptr then Some(j) else Find(p, ptr, j + 1)
  }

  datatype Meeting = Nowhere | Meeting(i: nat, j: nat)

  /** The last of the first n directories of the old parent's path that is on the node's path.  latest takes its
      pointers to the merged branch. */
  function Meet(oldParent: Path, node: Path, latest: BlockPointer -> BlockPointer, n: nat): (m: Meeting)
    requires n <= |oldParent|
    ensures m.Meeting? ==> m.i < n && m.j < |node| && node[m.j].ptr == latest(oldParent[m.i].ptr)
  {
    if n == 0 then Nowhere
    else
      var j := Find(node, latest(oldParent[n - 1].ptr), 0);
      if j.Some? then Meeting(n - 1, j.value) else Meet(oldParent, node, latest, n - 1)
  }

  lemma {:induction false} MeetIsLast(oldParent: Path, node: Path, latest: BlockPointer -> BlockPointer, n: nat,
                                      i: nat, j: nat)
    requires i < n <= |oldParent| && j < |node| && latest(oldParent[i].ptr) == node[j].ptr
    ensures var m := Meet(oldParent, node, latest, n); m.Meeting? && i <= m.i
  {
    if i < n - 1 {
      MeetIsLast(oldParent, node, latest, n - 1, i, j);
    }
  }

  /** The names strictly between place j of the path and its end. */
  function Between(node: Path, j: nat): seq<string> {
    if j + 1 < |node| then Names(node[j + 1..|node| - 1]) else []
  }

  function DoubleLink(oldParent: Path, node: Path, newName: string, latest: BlockPointer -> BlockPointer): string {
    match Meet(oldParent, node, latest, |oldParent|)
    case Nowhere => LinkText(|oldParent|, Between(node, 0), newName)
    case Meeting(i, j) => LinkText(|oldParent| - 1 - i, Between(node, j), newName)
  }

  /** Two paths of one tree: they start at the same root, and where they meet they have come the same way. */
  ghost predicate OneTree(oldParent: Path, node: Path, latest: BlockPointer -> BlockPointer) {
    && |oldParent| > 0 && |node| > 0 && latest(oldParent[0].ptr) == node[0].ptr
    && (forall i, j :: 0 <= i < |oldParent| && 0 <= j < |node| && latest(oldParent[i].ptr) == node[j].ptr ==>
          i == j && Names(oldParent[..i + 1]) == Names(node[..i + 1]))
    && (forall i :: 0 < i < |node| ==> IsName(node[i].name))
  }

  /** In one tree, the link made in the old parent for a node other than the root leads to the node, exactly when
      the old parent is not inside the node. */
  lemma DoubleLinkResolves(oldParent: Path, node: Path, latest: BlockPointer -> BlockPointer)
    requires OneTree(oldParent, node, latest) && |node| > 1
    ensures var last := node[|node| - 1];
            Resolve(Names(oldParent), DoubleLink(oldParent, node, last.name, latest)) == Names(node)
            <==> forall i :: 0 <= i < |oldParent| ==> latest(oldParent[i].ptr) != last.ptr
  {
    var last := node[|node| - 1];
    MeetIsLast(oldParent, node, latest, |oldParent|, 0, 0);
    var m := Meet(oldParent, node, latest, |oldParent|);
    LinkFromMeeting(oldParent, node, m.i);
    forall i | 0 <= i < |oldParent|
      ensures latest(oldParent[i].ptr) == last.ptr ==> m.i == |node| - 1
    {
      if latest(oldParent[i].ptr) == last.ptr {
        MeetIsLast(oldParent, node, latest, |oldParent|, i, |node| - 1);
      }
    }
  }

  /** The link leads from a meeting at place i down the node's path, unless that is already its end. */
  lemma LinkFromMeeting(oldParent: Path, node: Path, i: nat)
    requires i < |oldParent| && i < |node| && Names(oldParent[..i + 1]) == Names(node[..i + 1])
    requires |node| > 1 && forall k :: 0 < k < |node| ==> IsName(node[k].name)
    ensures var link := LinkText(|oldParent| - 1 - i, Between(node, i), node[|node| - 1].name);
            Resolve(Names(oldParent), link) == Names(node) <==> i < |node| - 1
  {
    BetweenNames(node, i);
    LinkResolves(Names(oldParent), |oldParent| - 1 - i, Between(node, i), node[|node| - 1].name);
    NamesPrefix(oldParent, i + 1);
    PathFrom(node, i);
  }

  lemma NamesPrefix(p: Path, n: nat)
    requires n <= |p|
    ensures Names(p)[..n] == Names(p[..n])
  {
  }

  lemma BetweenNames(node: Path, i: nat)
    requires forall k :: 0 < k < |node| ==> IsName(node[k].name)
    ensures forall k :: 0 <= k < |Between(node, i)| ==> IsName(Between(node, i)[k])
  {
  }

  lemma PathFrom(node: Path, i: nat)
    requires i < |node|
    ensures Names(node[..i + 1]) + Between(node, i) + [node[|node| - 1].name] == Names(node) <==> i < |node| - 1
  {
    assert i == |node| - 1 ==> |Names(node[..i + 1]) + Between(node, i) + [node[|node| - 1].name]| == |node| + 1;
  }

  lemma {:induction false} MeetNowhere(oldParent: Path, node: Path, latest: BlockPointer -> BlockPointer, n: nat)
    requires n <= |oldParent|
    requires forall i, j :: 0 <= i < |oldParent| && 0 <= j < |node| ==> latest(oldParent[i].ptr) != node[j].ptr
    ensures Meet(oldParent, node, latest, n) == Nowhere
  {
    if n > 0 {
      MeetNowhere(oldParent, node, latest, n - 1);
    }
  }

  /** If no directory of the old parent's path is on the node's path, the link leads from the top of the old parent's
      path along the node's path below its first directory. */
  lemma StrangersLinkResolves(oldParent: Path, node: Path, newName: string, latest: BlockPointer -> BlockPointer)
    requires |node| > 1 && IsName(newName) && forall i :: 0 < i < |node| ==> IsName(node[i].name)
    requires forall i, j :: 0 <= i < |oldParent| && 0 <= j < |node| ==> latest(oldParent[i].ptr) != node[j].ptr
    ensures Resolve(Names(oldParent), DoubleLink(oldParent, node, newName, latest))
            == Names(node)[1..|node| - 1] + [newName]
  {
    MeetNowhere(oldParent, node, latest, |oldParent|);
    BetweenNames(node, 0);
    BetweenFirst(node);
    FromTheTop(Names(oldParent), Between(node, 0), newName);
  }

  lemma BetweenFirst(node: Path)
    requires |node| > 1
    ensures Between(node, 0) == Names(node)[1..|node| - 1]
  {
  }

  lemma FromTheTop(dir: seq<string>, names: seq<string>, last: string)
    requires IsName(last) && forall i :: 0 <= i < |names| ==> IsName(names[i])
    ensures Resolve(dir, LinkText(|dir|, names, last)) == names + [last]
  {
    LinkResolves(dir, |dir|, names, last);
    assert dir[..0] + names == names;
  }

  /** For directory a, whose old parent b is now inside it, the link leads to a/a. */
  lemma LinkInsideItself()
    ensures var root, a, b := PathNode(1, "r"), PathNode(2, "a"), PathNode(3, "b");
            var link := DoubleLink([root, a, b], [root, a], "a", p => p);
            Resolve(["r", "a", "b"], link) == ["r", "a", "a"]
  {
    var root, a, b := PathNode(1, "r"), PathNode(2, "a"), PathNode(3, "b");
    var oldParent, node := [root, a, b], [root, a];
    assert Find(node, 3, 2) == None && Find(node, 3, 1) == None && Find(node, 3, 0) == None;
    assert Find(node, 2, 1) == Some(1) && Find(node, 2, 0) == Some(1);
    assert Meet(oldParent, node, p => p, 3) == Meeting(1, 1);
    LinkResolves(["r", "a", "b"], 1, [], "a");
    assert ["r", "a", "b"][..2] + [] + ["a"] == ["r", "a", "a"];
  }

  lemma LinkTextParts(k: nat, names: seq<string>, last: string)
    ensures "./" + Ups(k) + Downs(names) + last == LinkText(k, names, last)
  {
  }

  method MakeDoubleLink(oldParent: Path, node: Path, newName: string, latest: BlockPointer -> BlockPointer)
    returns (symPath: string)
    requires |node| > 0
    ensures symPath == DoubleLink(oldParent, node, newName, latest)
  {
    var up, newParentStart := GoUpTo(oldParent, node, latest);
    symPath := GoDownTo(up, node, newParentStart);
    symPath := symPath + newName;
    ghost var m := Meet(oldParent, node, latest, |oldParent|);
    LinkTextParts(if m.Meeting? then |oldParent| - 1 - m.i else |oldParent|, Between(node, newParentStart), newName);
  }

  /** Go up from the old parent to the first directory on the node's path. */
  method GoUpTo(oldParent: Path, node: Path, latest: BlockPointer -> BlockPointer)
    returns (symPath: string, newParentStart: nat)
    ensures var m := Meet(oldParent, node, latest, |oldParent|);
            && symPath == "./" + Ups(if m.Meeting? then |oldParent| - 1 - m.i else |oldParent|)
            && newParentStart == if m.Meeting? then m.j else 0
  {
    symPath := "./";
    newParentStart := 0;
    var i := |oldParent| - 1;
    assert "./" + Ups(0) == "./";
    while i >= 0
      invariant -1 <= i < |oldParent| && symPath == "./" + Ups(|oldParent| - 1 - i)
      invariant Meet(oldParent, node, latest, |oldParent|) == Meet(oldParent, node, latest, i + 1)
    {
      var j := FindNode(node, latest(oldParent[i].ptr));
      if j.Some? {
        newParentStart := j.value;
        break;
      }
      ghost var ups := |oldParent| - 1 - i;
      UpsMore(ups);
      assert "./" + Ups(ups) + "../" == "./" + Ups(ups + 1);
      symPath := symPath + "../";
      i := i - 1;
    }
  }

  method FindNode(p: Path, ptr: BlockPointer) returns (r: Option<nat>)
    ensures r == Find(p, ptr, 0)
  {
    var j := 0;
    while j < |p|
      invariant j <= |p| && Find(p, ptr, 0) == Find(p, ptr, j)
    {
      if p[j].ptr == ptr {
        return Some(j);
      }
      j := j + 1;
    }
    return None;
  }

  method GoDownTo(symPath0: string, node: Path, start: nat) returns (symPath: string)
    requires |node| > 0
    ensures symPath == symPath0 + Downs(Between(node, start))
  {
    symPath := symPath0;
    var i := start + 1;
    ghost var names := [];
    assert symPath0 + Downs([]) == symPath0;
    while i < |node| - 1
      invariant start + 1 <= i && (if start + 1 < |node| then i <= |node| - 1 else i == start + 1)
      invariant |names| == i - start - 1 && (start + 1 < |node| ==> names == Names(node[start + 1..i]))
      invariant symPath == symPath0 + Downs(names)
    {
      DownsMore(names, node[i].name);
      assert symPath0 + Downs(names) + (node[i].name + "/") == symPath0 + (Downs(names) + (node[i].name + "/"));
      symPath := symPath + (node[i].name + "/");
      names := names + [node[i].name];
      i := i + 1;
    }
    assert names == Between(node, start);
  }
}

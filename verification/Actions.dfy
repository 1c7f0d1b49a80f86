/** The actions of conflict resolution on one directory, and the dropping of those that others make irrelevant
    (libkbfs/cr_actions.go). */
module Actions {
  import opened Outcomes
  import opened Ops

  datatype Action =
    | RenameUnmerged(fromName: string, toName: string, symPath: string)
    | CopyEntry(fromName: string, toName: string, symPath: string, unique: bool)
    | CopyAttr(fromName: string, toName: string, attr: seq<AttrChange>)
    | RenameMerged(fromName: string, toName: string, symPath: string)
    | RmMerged(name: string)
    | DropUnmerged(op: Op)

  const MERGED_PREFIX := ".kbfs_merged_"
  const RESERVED_PREFIX := ".kbfs"

  /** Actions with the same key compete.  Merged renames are kept apart by a reserved prefix. */
  function Key(a: Action): Option<string> {
    match a
    case RenameUnmerged(f, _, _) => Some(f)
    case CopyEntry(f, _, _, _) => Some(f)
    case CopyAttr(f, _, _) => Some(f)
    case RenameMerged(f, _, _) => Some(MERGED_PREFIX + f)
    case _ => None
  }

  /** Whether an action displaces the one that is on top for its key. */
  predicate TakesOver(top: Option<Action>, a: Action) {
    match a
    case CopyEntry(_, _, _, _) => !(top.Some? && top.value.RenameUnmerged?)
    case CopyAttr(_, _, _) => top.None? || !(top.value.RenameUnmerged? || top.value.CopyEntry? || top.value.CopyAttr?)
    case _ => true
  }

  function At(cal: seq<Action>, i: Option<nat>): Option<Action> {
    if i.Some? && i.value < |cal| then Some(cal[i.value]) else None
  }

  /** The action on top for a key among the first n. */
  function Top(cal: seq<Action>, n: nat, k: string): (t: Option<nat>)
    requires n <= |cal|
    ensures t.Some? ==> t.value < n && Key(cal[t.value]) == Some(k)
  {
    if n == 0 then None
    else
      var t := Top(cal, n - 1, k);
      if Key(cal[n - 1]) == Some(k) && TakesOver(At(cal, t), cal[n - 1]) then Some(n - 1) else t
  }

  /** Attributes are added to those on top unless already there. */
  function AddAttrs(top: seq<AttrChange>, more: seq<AttrChange>): seq<AttrChange> {
    if more == [] then top
    else
      var t, x := AddAttrs(top, more[..|more| - 1]), more[|more| - 1];
      if x in t then t else t + [x]
  }

  /** The attributes collected for a key among the first n. */
  function Attrs(cal: seq<Action>, n: nat, k: string): seq<AttrChange>
    requires n <= |cal|
  {
    if n == 0 then []
    else
      var a := cal[n - 1];
      if Key(a) == Some(k) && a.CopyAttr? then
        if TakesOver(At(cal, Top(cal, n - 1, k)), a) then a.attr else AddAttrs(Attrs(cal, n - 1, k), a.attr)
      else Attrs(cal, n - 1, k)
  }

  /** Action i is no longer on top after the first n. */
  predicate Lost(cal: seq<Action>, n: nat, i: nat)
    requires i < n <= |cal|
  {
    Key(cal[i]).Some? && Top(cal, n, Key(cal[i]).value) != Some(i)
  }

  /** What became of action i after the first n, if it is not lost. */
  function Final(cal: seq<Action>, n: nat, i: nat): (a: Action)
    requires i < n <= |cal|
    ensures Key(a) == Key(cal[i])
  {
    if cal[i].CopyAttr? then cal[i].(attr := Attrs(cal, n, cal[i].fromName)) else cal[i]
  }

  /** What is left of action i. */
  function Left(cal: seq<Action>, i: nat): seq<Action>
    requires i < |cal|
  {
    if Lost(cal, |cal|, i) then [] else [Final(cal, |cal|, i)]
  }

  function Kept(cal: seq<Action>, m: nat): seq<Action>
    requires m <= |cal|
  {
    if m == 0 then [] else Kept(cal, m - 1) + Left(cal, m - 1)
  }

  function Collapsed(cal: seq<Action>): seq<Action> {
    Kept(cal, |cal|)
  }

  // ---------- One action per key, the others untouched ----------

  /** The actions with a key, or those without any, among the first n. */
  function Select(s: seq<Action>, n: nat, k: Option<string>): seq<Action>
    requires n <= |s|
  {
    if n == 0 then [] else Select(s, n - 1, k) + if Key(s[n - 1]) == k then [s[n - 1]] else []
  }

  lemma {:induction false} SelectPrefix(s: seq<Action>, t: seq<Action>, n: nat, k: Option<string>)
    requires n <= |s|
    ensures Select(s + t, n, k) == Select(s, n, k)
  {
    if n > 0 {
      SelectPrefix(s, t, n - 1, k);
    }
  }

  lemma SelectMore(s: seq<Action>, t: seq<Action>, k: Option<string>)
    requires |t| <= 1
    ensures Select(s + t, |s + t|, k) == Select(s, |s|, k) + if |t| == 1 && Key(t[0]) == k then t else []
  {
    SelectPrefix(s, t, |s|, k);
  }

  lemma LeftOfKey(cal: seq<Action>, i: nat, k: string)
    requires i < |cal|
    ensures var left := Left(cal, i); |left| == 1 && Key(left[0]) == Some(k) <==> Top(cal, |cal|, k) == Some(i)
  {
  }

  /** What is left for the key of the first m, when t is on top for it. */
  function TopBefore(cal: seq<Action>, m: nat, t: Option<nat>): seq<Action>
    requires m <= |cal|
  {
    if t.Some? && t.value < m then [Final(cal, |cal|, t.value)] else []
  }

  lemma TopBeforeMore(cal: seq<Action>, m: nat, k: string)
    requires m < |cal|
    ensures var t, left := Top(cal, |cal|, k), Left(cal, m);
            TopBefore(cal, m + 1, t)
            == TopBefore(cal, m, t) + if |left| == 1 && Key(left[0]) == Some(k) then left else []
  {
    LeftOfKey(cal, m, k);
  }

  lemma SelectStep(kept: seq<Action>, left: seq<Action>, k: string, before: seq<Action>, after: seq<Action>)
    requires |left| <= 1 && Select(kept, |kept|, Some(k)) == before
    requires after == before + if |left| == 1 && Key(left[0]) == Some(k) then left else []
    ensures Select(kept + left, |kept + left|, Some(k)) == after
  {
    SelectMore(kept, left, Some(k));
  }

  /** Of the first m actions, what is kept for the key is the one on top for it. */
  predicate KeptIsTop(kept: seq<Action>, k: string, top: seq<Action>) {
    Select(kept, |kept|, Some(k)) == top
  }

  lemma KeptStep(cal: seq<Action>, m: nat, k: string, t: Option<nat>)
    requires m < |cal| && t == Top(cal, |cal|, k) && KeptIsTop(Kept(cal, m), k, TopBefore(cal, m, t))
    ensures KeptIsTop(Kept(cal, m + 1), k, TopBefore(cal, m + 1, t))
  {
    TopBeforeMore(cal, m, k);
    SelectStep(Kept(cal, m), Left(cal, m), k, TopBefore(cal, m, t), TopBefore(cal, m + 1, t));
  }

  lemma KeptNothing(cal: seq<Action>, k: string, t: Option<nat>)
    ensures KeptIsTop(Kept(cal, 0), k, TopBefore(cal, 0, t))
  {
  }

  lemma {:induction false} KeptOfKey(cal: seq<Action>, m: nat, k: string, t: Option<nat>)
    requires m <= |cal| && t == Top(cal, |cal|, k)
    ensures KeptIsTop(Kept(cal, m), k, TopBefore(cal, m, t))
  {
    if m == 0 {
      KeptNothing(cal, k, t);
    } else {
      KeptOfKey(cal, m - 1, k, t);
      KeptStep(cal, m - 1, k, t);
    }
  }

  /** Collapse leaves, for each key, the action on top and no other. */
  lemma CollapseLeavesTop(cal: seq<Action>, k: string)
    ensures var t := Top(cal, |cal|, k);
            Select(Collapsed(cal), |Collapsed(cal)|, Some(k))
            == if t.Some? then [Final(cal, |cal|, t.value)] else []
  {
    KeptOfKey(cal, |cal|, k, Top(cal, |cal|, k));
  }

  lemma {:induction false} KeptOthers(cal: seq<Action>, m: nat)
    requires m <= |cal|
    ensures Select(Kept(cal, m), |Kept(cal, m)|, None) == Select(cal, m, None)
  {
    if m > 0 {
      KeptOthers(cal, m - 1);
      SelectMore(Kept(cal, m - 1), Left(cal, m - 1), None);
    }
  }

  /** Removals of merged entries and drops of unmerged operations all stay, in order. */
  lemma CollapseKeepsOthers(cal: seq<Action>)
    ensures Select(Collapsed(cal), |Collapsed(cal)|, None) == Select(cal, |cal|, None)
  {
    KeptOthers(cal, |cal|);
  }

  // ---------- Precedence ----------

  datatype Kind = RenameKind | EntryKind | AttrKind | MergedKind

  predicate IsKind(a: Action, kind: Kind) {
    match kind
    case RenameKind => a.RenameUnmerged?
    case EntryKind => a.CopyEntry?
    case AttrKind => a.CopyAttr?
    case MergedKind => a.RenameMerged?
  }

  function Last(cal: seq<Action>, n: nat, k: string, kind: Kind): Option<nat>
    requires n <= |cal|
  {
    if n == 0 then None
    else if Key(cal[n - 1]) == Some(k) && IsKind(cal[n - 1], kind) then Some(n - 1)
    else Last(cal, n - 1, k, kind)
  }

  function First(cal: seq<Action>, n: nat, k: string, kind: Kind): Option<nat>
    requires n <= |cal|
  {
    if n == 0 then None
    else if First(cal, n - 1, k, kind).Some? then First(cal, n - 1, k, kind)
    else if Key(cal[n - 1]) == Some(k) && IsKind(cal[n - 1], kind) then Some(n - 1)
    else None
  }

  /** The rule: the last rename, or else the last entry copy, or else the first attribute copy. */
  function Preferred(cal: seq<Action>, n: nat, k: string): Option<nat>
    requires n <= |cal|
  {
    if Last(cal, n, k, RenameKind).Some? then Last(cal, n, k, RenameKind)
    else if Last(cal, n, k, EntryKind).Some? then Last(cal, n, k, EntryKind)
    else First(cal, n, k, AttrKind)
  }

  lemma {:induction false} FirstAndLast(cal: seq<Action>, n: nat, k: string, kind: Kind)
    requires n <= |cal|
    ensures First(cal, n, k, kind).Some? <==> Last(cal, n, k, kind).Some?
    ensures var i := Last(cal, n, k, kind); i.Some? ==> i.value < n && IsKind(cal[i.value], kind)
    ensures var i := First(cal, n, k, kind); i.Some? ==> i.value < n && IsKind(cal[i.value], kind)
  {
    if n > 0 {
      FirstAndLast(cal, n - 1, k, kind);
    }
  }

  /** Where no merged rename shares the key, the action on top is the one the rule prefers; where only merged renames
      have it, the last of them. */
  lemma {:induction false} TopIsPreferred(cal: seq<Action>, n: nat, k: string)
    requires n <= |cal|
    ensures Last(cal, n, k, MergedKind).None? ==> Top(cal, n, k) == Preferred(cal, n, k)
    ensures Preferred(cal, n, k).None? ==> Top(cal, n, k) == Last(cal, n, k, MergedKind)
  {
    if n > 0 {
      TopIsPreferred(cal, n - 1, k);
      FirstAndLast(cal, n - 1, k, RenameKind);
      FirstAndLast(cal, n - 1, k, EntryKind);
      FirstAndLast(cal, n - 1, k, AttrKind);
      FirstAndLast(cal, n - 1, k, MergedKind);
    }
  }

  /** What collapse leaves for a key. */
  function LeftFor(cal: seq<Action>, k: string): seq<Action> {
    Select(Collapsed(cal), |Collapsed(cal)|, Some(k))
  }

  /** If collapse is to keep action i for the key, it does. */
  predicate Stays(cal: seq<Action>, k: string, i: Option<nat>)
    requires i.Some? ==> i.value < |cal|
  {
    i.Some? ==> Final(cal, |cal|, i.value) in LeftFor(cal, k)
  }

  /** The unmerged action that the rule prefers for a key and the last merged rename with it both stay exactly if there
      are not both; the one there is, is then all that is left for the key. */
  lemma PrecedenceExact(cal: seq<Action>, k: string)
    ensures var p, m := Preferred(cal, |cal|, k), Last(cal, |cal|, k, MergedKind);
            && (p.Some? ==> p.value < |cal|) && (m.Some? ==> m.value < |cal|)
            && (Stays(cal, k, p) && Stays(cal, k, m) <==> !(p.Some? && m.Some?))
            && (!(p.Some? && m.Some?) ==>
                  var t := if p.Some? then p else m;
                  Top(cal, |cal|, k) == t && LeftFor(cal, k) == if t.Some? then [Final(cal, |cal|, t.value)] else [])
  {
    CollapseLeavesTop(cal, k);
    TopIsPreferred(cal, |cal|, k);
    FirstAndLast(cal, |cal|, k, RenameKind);
    FirstAndLast(cal, |cal|, k, EntryKind);
    FirstAndLast(cal, |cal|, k, AttrKind);
    FirstAndLast(cal, |cal|, k, MergedKind);
  }

  predicate Reserved(name: string) {
    RESERVED_PREFIX <= name
  }

  /** No unmerged name has the reserved prefix. */
  predicate Unreserved(a: Action) {
    a.RenameUnmerged? || a.CopyEntry? || a.CopyAttr? ==> !Reserved(a.fromName)
  }

  lemma {:induction false} KindByKey(cal: seq<Action>, n: nat, k: string, kind: Kind)
    requires n <= |cal| && (forall i :: 0 <= i < |cal| ==> Unreserved(cal[i]))
    ensures Last(cal, n, k, kind).Some? ==> (kind == MergedKind <==> Reserved(k))
  {
    if n > 0 {
      KindByKey(cal, n - 1, k, kind);
      assert kind.MergedKind? && IsKind(cal[n - 1], kind) ==> Reserved(MERGED_PREFIX + cal[n - 1].fromName);
    }
  }

  /** So, for names without the reserved prefix, collapse leaves for each name exactly one unmerged action of the
      highest precedence present, and for each merged name exactly the last rename. */
  lemma CollapsePrecedence(cal: seq<Action>, k: string)
    requires forall i :: 0 <= i < |cal| ==> Unreserved(cal[i])
    ensures var t := if Reserved(k) then Last(cal, |cal|, k, MergedKind) else Preferred(cal, |cal|, k);
            && Top(cal, |cal|, k) == t
            && LeftFor(cal, k) == if t.Some? then [Final(cal, |cal|, t.value)] else []
  {
    PrecedenceExact(cal, k);
    FirstAndLast(cal, |cal|, k, AttrKind);
    KindByKey(cal, |cal|, k, MergedKind);
    KindByKey(cal, |cal|, k, RenameKind);
    KindByKey(cal, |cal|, k, EntryKind);
    KindByKey(cal, |cal|, k, AttrKind);
  }

  /** With the reserved prefix the two sides meet: a merged rename drops an unmerged one. */
  lemma ReservedNamesCollide(x: string)
    ensures var cal := [RenameUnmerged(MERGED_PREFIX + x, "", ""), RenameMerged(x, "", "")];
            Collapsed(cal) == [cal[1]]
  {
    var cal := [RenameUnmerged(MERGED_PREFIX + x, "", ""), RenameMerged(x, "", "")];
    var k := MERGED_PREFIX + x;
    assert Top(cal, 1, k) == Some(0);
    assert Top(cal, 2, k) == Some(1);
    assert Kept(cal, 1) == [];
  }

  // ---------- The attributes of an attribute-only group ----------

  lemma {:induction false} AddAttrsIs(top: seq<AttrChange>, more: seq<AttrChange>, x: AttrChange)
    ensures x in AddAttrs(top, more) <==> x in top || x in more
  {
    if more != [] {
      AddAttrsIs(top, more[..|more| - 1], x);
      AddAttrsIs(top, more[..|more| - 1], more[|more| - 1]);
      assert more == more[..|more| - 1] + [more[|more| - 1]];
    }
  }

  /** Some attribute copy with the key among the first n has the attribute. */
  predicate Asked(cal: seq<Action>, n: nat, k: string, x: AttrChange)
    requires n <= |cal|
  {
    n > 0 && (Asked(cal, n - 1, k, x)
              || (Key(cal[n - 1]) == Some(k) && cal[n - 1].CopyAttr? && x in cal[n - 1].attr))
  }

  /** The attribute copy that is left asks for exactly what all those of its name asked for. */
  lemma {:induction false} AttrsAreUnion(cal: seq<Action>, n: nat, k: string, x: AttrChange)
    requires n <= |cal| && Last(cal, n, k, RenameKind).None? && Last(cal, n, k, EntryKind).None?
    requires Last(cal, n, k, MergedKind).None?
    ensures x in Attrs(cal, n, k) <==> Asked(cal, n, k, x)
    ensures Top(cal, n, k).None? ==> !Asked(cal, n, k, x)
  {
    if n > 0 {
      AttrsAreUnion(cal, n - 1, k, x);
      if Key(cal[n - 1]) == Some(k) && cal[n - 1].CopyAttr? {
        AddAttrsIs(Attrs(cal, n - 1, k), cal[n - 1].attr, x);
        TopIsPreferred(cal, n - 1, k);
        FirstAndLast(cal, n - 1, k, AttrKind);
      }
    }
  }

  // ---------- Idempotence ----------

  /** No two actions compete. */
  predicate Settled(s: seq<Action>) {
    forall i, j :: 0 <= i < j < |s| && Key(s[i]).Some? ==> Key(s[i]) != Key(s[j])
  }

  lemma {:induction false} KeptFrom(cal: seq<Action>, m: nat, p: nat) returns (i: nat)
    requires m <= |cal| && p < |Kept(cal, m)|
    ensures i < m && !Lost(cal, |cal|, i) && Kept(cal, m)[p] == Final(cal, |cal|, i)
  {
    if p < |Kept(cal, m - 1)| {
      i := KeptFrom(cal, m - 1, p);
    } else {
      i := m - 1;
    }
  }

  lemma {:induction false} KeptSettled(cal: seq<Action>, m: nat)
    requires m <= |cal|
    ensures Settled(Kept(cal, m))
  {
    if m > 0 {
      KeptSettled(cal, m - 1);
      var kept := Kept(cal, m - 1);
      forall p | 0 <= p < |kept|
        ensures Lost(cal, |cal|, m - 1) || Key(cal[m - 1]).None? || Key(kept[p]) != Key(cal[m - 1])
      {
        var i := KeptFrom(cal, m - 1, p);
      }
    }
  }

  lemma {:induction false} SettledTop(s: seq<Action>, n: nat, i: nat)
    requires Settled(s) && i < |s| && n <= |s| && Key(s[i]).Some?
    ensures Top(s, n, Key(s[i]).value) == if i < n then Some(i) else None
    ensures i < n && s[i].CopyAttr? ==> Attrs(s, n, s[i].fromName) == s[i].attr
  {
    if n > 0 {
      SettledTop(s, n - 1, i);
    }
  }

  lemma {:induction false} SettledStays(s: seq<Action>, m: nat)
    requires Settled(s) && m <= |s|
    ensures Kept(s, m) == s[..m]
  {
    if m > 0 {
      SettledStays(s, m - 1);
      if Key(s[m - 1]).Some? {
        SettledTop(s, |s|, m - 1);
      }
      assert s[..m] == s[..m - 1] + [s[m - 1]];
    }
  }

  /** Collapsing again changes nothing. */
  lemma CollapseIdempotent(cal: seq<Action>)
    ensures Collapsed(Collapsed(cal)) == Collapsed(cal)
  {
    KeptSettled(cal, |cal|);
    SettledStays(Collapsed(cal), |Collapsed(cal)|);
    assert Collapsed(cal)[..|Collapsed(cal)|] == Collapsed(cal);
  }

  // ---------- The collapse ----------

  method MergeAttrs(top: seq<AttrChange>, more: seq<AttrChange>) returns (attr: seq<AttrChange>)
    ensures attr == AddAttrs(top, more)
  {
    attr := top;
    var i := 0;
    while i < |more|
      invariant i <= |more| && attr == AddAttrs(top, more[..i])
    {
      assert more[..i + 1][..i] == more[..i];
      if more[i] !in attr {
        attr := attr + [more[i]];
      }
      i := i + 1;
    }
    assert more[..|more|] == more;
  }

  /** The tops after the first n actions. */
  ghost predicate Tops(cal: seq<Action>, n: nat, info: map<string, nat>)
    requires n <= |cal|
  {
    forall k :: Top(cal, n, k) == if k in info then Some(info[k]) else None
  }

  /** The action at i is lost and marked, or is what it became. */
  ghost predicate Tracked(cal: seq<Action>, n: nat, list: seq<Action>, removed: set<nat>, i: nat)
    requires i < |cal| == |list| && n <= |cal|
  {
    if i >= n then list[i] == cal[i] && i !in removed
    else if Lost(cal, n, i) then i in removed
    else i !in removed && list[i] == Final(cal, n, i)
  }

  ghost predicate AllTracked(cal: seq<Action>, n: nat, list: seq<Action>, removed: set<nat>) {
    n <= |cal| == |list| && forall i :: 0 <= i < |cal| ==> Tracked(cal, n, list, removed, i)
  }

  method Collapse(cal: seq<Action>) returns (newList: seq<Action>)
    ensures newList == Collapsed(cal)
  {
    var info: map<string, nat>, removed: set<nat>, list := map[], {}, cal;
    var i := 0;
    while i < |cal|
      invariant i <= |cal| && Tops(cal, i, info) && AllTracked(cal, i, list, removed)
    {
      info, removed, list := Consider(cal, i, info, removed, list);
      i := i + 1;
    }
    newList := [];
    i := 0;
    while i < |cal|
      invariant i <= |cal| && newList == Kept(cal, i)
    {
      assert Tracked(cal, |cal|, list, removed, i);
      if i !in removed {
        newList := newList + [list[i]];
      }
      i := i + 1;
    }
  }

  /** Take in the next action. */
  method Consider(cal: seq<Action>, i: nat, info0: map<string, nat>, removed0: set<nat>, list0: seq<Action>)
    returns (info: map<string, nat>, removed: set<nat>, list: seq<Action>)
    requires i < |cal| && Tops(cal, i, info0) && AllTracked(cal, i, list0, removed0)
    ensures Tops(cal, i + 1, info) && AllTracked(cal, i + 1, list, removed)
  {
    info, removed, list := info0, removed0, list0;
    var key := Key(cal[i]);
    if key.Some? {
      var k := key.value;
      var top := if k in info then Some(info[k]) else None;
      assert top == Top(cal, i, k);
      if TakesOver(At(cal, top), cal[i]) {
        if k in info {
          removed := removed + {info[k]};
        }
        info := info[k := i];
      } else {
        if cal[i].CopyAttr? && cal[top.value].CopyAttr? {
          assert Tracked(cal, i, list0, removed0, top.value);
          var attr := MergeAttrs(list[top.value].attr, cal[i].attr);
          list := list[top.value := list[top.value].(attr := attr)];
        }
        removed := removed + {i};
      }
    }
    var n := i + 1;
    forall j | 0 <= j < |cal|
      ensures Tracked(cal, n, list, removed, j)
    {
      assert Tracked(cal, i, list0, removed0, j);
    }
  }
}

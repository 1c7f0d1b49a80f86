/** Running a list of attribute copies, collapsed or not (libkbfs/cr_actions.go). */
module AttrRuns {
  import opened Outcomes
  import opened Collections
  import opened Ops
  import opened Actions
  import opened ActionRuns

  predicate AttrOnly(cal: seq<Action>) {
    forall i :: 0 <= i < |cal| ==> cal[i].CopyAttr?
  }

  /** No two unmerged names go to the same merged name: the entry of a node is called one thing on each branch. */
  predicate OneSource(cal: seq<Action>) {
    forall i, j :: 0 <= i < |cal| && 0 <= j < |cal| && cal[i].CopyAttr? && cal[j].CopyAttr? ==>
                     (cal[i].toName == cal[j].toName ==> cal[i].fromName == cal[j].fromName)
  }

  /** And each unmerged name goes to one merged name. */
  predicate NamesPaired(cal: seq<Action>) {
    forall i, j :: 0 <= i < |cal| && 0 <= j < |cal| && cal[i].CopyAttr? && cal[j].CopyAttr? ==>
                     (cal[i].fromName == cal[j].fromName <==> cal[i].toName == cal[j].toName)
  }

  /** The actions, each taking entries from the unmerged block. */
  function StepsOf(cal: seq<Action>, unmerged: Children): (steps: seq<ActionRuns.Step>)
    ensures |steps| == |cal|
  {
    seq(|cal|, i requires 0 <= i < |cal| => ActionRuns.Step(cal[i], Block(unmerged), None, None))
  }

  /** The entry with the chosen attributes taken from another. */
  function Taken(e: DirEntry, from: DirEntry, ex: bool, mtime: bool, size: bool): DirEntry {
    var e1 := if ex then e.(entryType := from.entryType) else e;
    var e2 := if mtime then e1.(mtime := from.mtime) else e1;
    if size then WithSize(e2, from) else e2
  }

  lemma WithAttrsTaken(e: DirEntry, from: DirEntry, attrs: seq<AttrChange>)
    ensures WithAttrs(e, from, attrs, true) == Taken(e, from, ExAttr in attrs, MtimeAttr in attrs, SizeAttr in attrs)
  {
    WithAttrsIs(e, from, attrs);
  }

  /** One of the first n actions asks for the attribute of a name. */
  predicate Wanted(cal: seq<Action>, n: nat, t: string, x: AttrChange)
    requires n <= |cal|
  {
    exists i :: 0 <= i < n && Asks(cal[i], t, x)
  }

  predicate Asks(a: Action, t: string, x: AttrChange) {
    a.CopyAttr? && a.toName == t && x in a.attr
  }

  /** The entry that the first n actions make of the one called t. */
  ghost predicate EntryAfter(cal: seq<Action>, n: nat, unmerged: Children, t: string, e: DirEntry, e': DirEntry)
    requires n <= |cal|
  {
    && (forall i :: 0 <= i < n && cal[i].CopyAttr? && cal[i].toName == t && cal[i].fromName in unmerged ==>
          e' == Taken(e, unmerged[cal[i].fromName], Wanted(cal, n, t, ExAttr), Wanted(cal, n, t, MtimeAttr),
                      Wanted(cal, n, t, SizeAttr)))
    && ((forall i :: 0 <= i < n && cal[i].CopyAttr? ==> cal[i].toName != t) ==> e' == e)
  }

  predicate Found(a: Action, unmerged: Children, merged: Children) {
    a.CopyAttr? ==> a.fromName in unmerged && a.toName in merged
  }

  lemma WantedMore(cal: seq<Action>, n: nat, t: string, x: AttrChange)
    requires n < |cal|
    ensures Wanted(cal, n + 1, t, x) <==> Wanted(cal, n, t, x) || Asks(cal[n], t, x)
  {
  }

  lemma EntryMore(cal: seq<Action>, m: nat, n: nat, unmerged: Children, t: string, e: DirEntry, e': DirEntry)
    requires AttrOnly(cal) && OneSource(cal) && n == m + 1 <= |cal| && cal[m].fromName in unmerged
    requires EntryAfter(cal, m, unmerged, t, e, e')
    ensures EntryAfter(cal, n, unmerged, t, e,
                       if cal[m].toName == t then WithAttrs(e', unmerged[cal[m].fromName], cal[m].attr, true) else e')
  {
    WantedMore(cal, m, t, ExAttr);
    WantedMore(cal, m, t, MtimeAttr);
    WantedMore(cal, m, t, SizeAttr);
    if cal[m].toName == t {
      WithAttrsTaken(e', unmerged[cal[m].fromName], cal[m].attr);
    }
  }

  /** Each entry of the directory is what the first n actions make of it. */
  ghost predicate DirAfter(merged: Children, unmerged: Children, cal: seq<Action>, n: nat, dir: Children)
    requires n <= |cal|
  {
    forall t :: (t in dir <==> t in merged) && (t in merged ==> EntryAfter(cal, n, unmerged, t, merged[t], dir[t]))
  }

  lemma DirMore(merged: Children, unmerged: Children, cal: seq<Action>, m: nat, n: nat, dir: Children)
    requires AttrOnly(cal) && OneSource(cal) && n == m + 1 <= |cal| && Found(cal[m], unmerged, merged)
    requires DirAfter(merged, unmerged, cal, m, dir)
    ensures var o := CopyAttrs(unmerged, dir, cal[m].fromName, cal[m].toName, cal[m].attr);
            o.ok && DirAfter(merged, unmerged, cal, n, o.children)
  {
    var a := cal[m];
    assert a.toName in dir;
    forall t
      ensures var dir' := CopyAttrs(unmerged, dir, a.fromName, a.toName, a.attr).children;
              (t in dir' <==> t in merged) && (t in merged ==> EntryAfter(cal, n, unmerged, t, merged[t], dir'[t]))
    {
      if t in merged {
        EntryMore(cal, m, n, unmerged, t, merged[t], dir[t]);
      }
    }
  }

  predicate FoundAll(cal: seq<Action>, n: nat, unmerged: Children, merged: Children)
    requires n <= |cal|
  {
    forall i :: 0 <= i < n ==> Found(cal[i], unmerged, merged)
  }

  /** What the run of the first n actions has to give. */
  ghost predicate Ran(merged: Children, unmerged: Children, cal: seq<Action>, n: nat, r: Option<Children>)
    requires n <= |cal|
  {
    (r.Some? <==> FoundAll(cal, n, unmerged, merged)) && (r.Some? ==> DirAfter(merged, unmerged, cal, n, r.value))
  }

  function Next(unmerged: Children, before: Option<Children>, a: Action): Option<Children>
    requires a.CopyAttr?
  {
    if before.None? then None
    else
      var o := CopyAttrs(unmerged, before.value, a.fromName, a.toName, a.attr);
      if o.ok then Some(o.children) else None
  }

  lemma RanMore(merged: Children, unmerged: Children, cal: seq<Action>, m: nat, n: nat, before: Option<Children>,
                after: Option<Children>)
    requires AttrOnly(cal) && OneSource(cal) && n == m + 1 <= |cal| && Ran(merged, unmerged, cal, m, before)
    requires after == Next(unmerged, before, cal[m])
    ensures Ran(merged, unmerged, cal, n, after)
  {
    if before.Some? {
      assert cal[m].toName in before.value <==> cal[m].toName in merged;
      if Found(cal[m], unmerged, merged) {
        DirMore(merged, unmerged, cal, m, n, before.value);
      }
    }
  }

  /** The directory after the first n actions, one after the other. */
  function CopiedFirst(merged: Children, unmerged: Children, cal: seq<Action>, n: nat): Option<Children>
    requires AttrOnly(cal) && n <= |cal|
  {
    if n == 0 then Some(merged) else Next(unmerged, CopiedFirst(merged, unmerged, cal, n - 1), cal[n - 1])
  }

  lemma {:induction false} CopiedIsRun(merged: Children, unmerged: Children, cal: seq<Action>, n: nat)
    requires AttrOnly(cal) && n <= |cal|
    ensures After(merged, StepsOf(cal, unmerged)[..n]) == CopiedFirst(merged, unmerged, cal, n)
  {
    if n > 0 {
      CopiedIsRun(merged, unmerged, cal, n - 1);
      AttrRunMore(merged, unmerged, cal, n);
    }
  }

  lemma RanNone(merged: Children, unmerged: Children, cal: seq<Action>, n: nat)
    requires n == 0
    ensures Ran(merged, unmerged, cal, n, Some(merged))
  {
    forall t | t in merged
      ensures EntryAfter(cal, n, unmerged, t, merged[t], merged[t])
    {
    }
  }

  lemma RanStep(merged: Children, unmerged: Children, cal: seq<Action>, n: nat, before: Option<Children>,
                after: Option<Children>)
    requires AttrOnly(cal) && OneSource(cal) && 0 < n <= |cal| && Ran(merged, unmerged, cal, n - 1, before)
    requires after == Next(unmerged, before, cal[n - 1])
    ensures Ran(merged, unmerged, cal, n, after)
  {
    RanMore(merged, unmerged, cal, n - 1, n, before, after);
  }

  lemma {:induction false} CopiedRan(merged: Children, unmerged: Children, cal: seq<Action>, n: nat)
    requires AttrOnly(cal) && OneSource(cal) && n <= |cal|
    ensures Ran(merged, unmerged, cal, n, CopiedFirst(merged, unmerged, cal, n))
  {
    if n == 0 {
      RanNone(merged, unmerged, cal, n);
    } else {
      CopiedRan(merged, unmerged, cal, n - 1);
      RanStep(merged, unmerged, cal, n, CopiedFirst(merged, unmerged, cal, n - 1),
              CopiedFirst(merged, unmerged, cal, n));
    }
  }

  /** Where all names are found, the run succeeds and makes of each entry what its actions ask for; else it fails. */
  lemma AttrRun(merged: Children, unmerged: Children, cal: seq<Action>)
    requires AttrOnly(cal) && OneSource(cal)
    ensures Ran(merged, unmerged, cal, |cal|, After(merged, StepsOf(cal, unmerged)))
  {
    CopiedIsRun(merged, unmerged, cal, |cal|);
    CopiedRan(merged, unmerged, cal, |cal|);
    assert StepsOf(cal, unmerged)[..|cal|] == StepsOf(cal, unmerged);
  }

  lemma AttrRunMore(merged: Children, unmerged: Children, cal: seq<Action>, n: nat)
    requires AttrOnly(cal) && 0 < n <= |cal|
    ensures After(merged, StepsOf(cal, unmerged)[..n])
            == Next(unmerged, After(merged, StepsOf(cal, unmerged)[..n - 1]), cal[n - 1])
  {
    var steps := StepsOf(cal, unmerged);
    assert steps[..n][..n - 1] == steps[..n - 1];
    assert steps[..n][n - 1] == ActionRuns.Step(cal[n - 1], Block(unmerged), None, None);
  }

  // ---------- The collapsed list ----------

  lemma {:induction false} OnlyAttrs(cal: seq<Action>, n: nat, k: string)
    requires AttrOnly(cal) && n <= |cal|
    ensures Last(cal, n, k, RenameKind).None? && Last(cal, n, k, EntryKind).None? && Last(cal, n, k, MergedKind).None?
  {
    if n > 0 {
      OnlyAttrs(cal, n - 1, k);
    }
  }

  lemma {:induction false} AskedBy(cal: seq<Action>, n: nat, k: string, x: AttrChange)
    requires AttrOnly(cal) && n <= |cal|
    ensures Asked(cal, n, k, x) <==> exists i :: 0 <= i < n && cal[i].fromName == k && x in cal[i].attr
  {
    if n > 0 {
      AskedBy(cal, n - 1, k, x);
    }
  }

  lemma {:induction false} SelectIn(s: seq<Action>, n: nat, k: Option<string>, a: Action)
    requires n <= |s| && a in Select(s, n, k)
    ensures a in s
  {
    if n > 0 && a in Select(s, n - 1, k) {
      SelectIn(s, n - 1, k, a);
    }
  }

  /** Every action is represented in the collapsed list by one with its names and all that was asked for them. */
  lemma Represented(cal: seq<Action>, j: nat) returns (p: nat)
    requires AttrOnly(cal) && NamesPaired(cal) && j < |cal|
    ensures p < |Collapsed(cal)| && Collapsed(cal)[p].CopyAttr?
    ensures Collapsed(cal)[p].fromName == cal[j].fromName && Collapsed(cal)[p].toName == cal[j].toName
    ensures forall x :: x in cal[j].attr ==> x in Collapsed(cal)[p].attr
  {
    var k := cal[j].fromName;
    OnlyAttrs(cal, |cal|, k);
    TopIsPreferred(cal, |cal|, k);
    FirstIsThere(cal, |cal|, j);
    var top := Top(cal, |cal|, k).value;
    CollapseLeavesTop(cal, k);
    var a := Final(cal, |cal|, top);
    assert a in Select(Collapsed(cal), |Collapsed(cal)|, Some(k));
    SelectIn(Collapsed(cal), |Collapsed(cal)|, Some(k), a);
    p :| 0 <= p < |Collapsed(cal)| && Collapsed(cal)[p] == a;
    forall x | x in cal[j].attr
      ensures x in a.attr
    {
      AttrsAreUnion(cal, |cal|, k, x);
      AskedBy(cal, |cal|, k, x);
    }
  }

  lemma {:induction false} FirstIsThere(cal: seq<Action>, n: nat, j: nat)
    requires AttrOnly(cal) && j < n <= |cal|
    ensures First(cal, n, cal[j].fromName, AttrKind).Some?
  {
    if j < n - 1 {
      FirstIsThere(cal, n - 1, j);
    }
  }

  /** And every action of the collapsed list has the names of an action of the list. */
  lemma ComesFrom(cal: seq<Action>, p: nat) returns (i: nat)
    requires AttrOnly(cal) && p < |Collapsed(cal)|
    ensures i < |cal| && Collapsed(cal)[p].CopyAttr?
    ensures Collapsed(cal)[p].fromName == cal[i].fromName && Collapsed(cal)[p].toName == cal[i].toName
    ensures NamesPaired(cal) ==> forall x :: x in Collapsed(cal)[p].attr ==> Wanted(cal, |cal|, cal[i].toName, x)
  {
    i := KeptFrom(cal, |cal|, p);
    if NamesPaired(cal) {
      var k := cal[i].fromName;
      OnlyAttrs(cal, |cal|, k);
      forall x | x in Collapsed(cal)[p].attr
        ensures Wanted(cal, |cal|, cal[i].toName, x)
      {
        AttrsAreUnion(cal, |cal|, k, x);
        AskedBy(cal, |cal|, k, x);
        var j :| 0 <= j < |cal| && cal[j].fromName == k && x in cal[j].attr;
        assert Asks(cal[j], cal[i].toName, x);
      }
    }
  }

  lemma CollapsedNames(cal: seq<Action>)
    requires AttrOnly(cal) && OneSource(cal)
    ensures AttrOnly(Collapsed(cal)) && OneSource(Collapsed(cal))
  {
    forall p | 0 <= p < |Collapsed(cal)|
      ensures Collapsed(cal)[p].CopyAttr?
    {
      var i := ComesFrom(cal, p);
    }
    forall p, q | 0 <= p < |Collapsed(cal)| && 0 <= q < |Collapsed(cal)|
      ensures Collapsed(cal)[p].toName == Collapsed(cal)[q].toName
              ==> Collapsed(cal)[p].fromName == Collapsed(cal)[q].fromName
    {
      var i := ComesFrom(cal, p);
      var j := ComesFrom(cal, q);
    }
  }

  lemma WantedSame(cal: seq<Action>, t: string, x: AttrChange)
    requires AttrOnly(cal) && NamesPaired(cal)
    ensures Wanted(Collapsed(cal), |Collapsed(cal)|, t, x) <==> Wanted(cal, |cal|, t, x)
  {
    if Wanted(Collapsed(cal), |Collapsed(cal)|, t, x) {
      var p :| 0 <= p < |Collapsed(cal)| && Asks(Collapsed(cal)[p], t, x);
      var i := ComesFrom(cal, p);
    }
    if Wanted(cal, |cal|, t, x) {
      var j :| 0 <= j < |cal| && Asks(cal[j], t, x);
      var p := Represented(cal, j);
      assert Asks(Collapsed(cal)[p], t, x);
    }
  }

  lemma FoundSame(cal: seq<Action>, unmerged: Children, merged: Children)
    requires AttrOnly(cal) && NamesPaired(cal)
    ensures FoundAll(cal, |cal|, unmerged, merged)
            <==> FoundAll(Collapsed(cal), |Collapsed(cal)|, unmerged, merged)
  {
    if FoundAll(cal, |cal|, unmerged, merged) {
      forall p | 0 <= p < |Collapsed(cal)|
        ensures Found(Collapsed(cal)[p], unmerged, merged)
      {
        var i := ComesFrom(cal, p);
        assert Found(cal[i], unmerged, merged);
      }
    }
    if FoundAll(Collapsed(cal), |Collapsed(cal)|, unmerged, merged) {
      forall i | 0 <= i < |cal|
        ensures Found(cal[i], unmerged, merged)
      {
        var p := Represented(cal, i);
        assert Found(Collapsed(cal)[p], unmerged, merged);
      }
    }
  }

  lemma EntrySame(cal: seq<Action>, unmerged: Children, merged: Children, t: string, e: DirEntry, e1: DirEntry,
                  e2: DirEntry)
    requires AttrOnly(cal) && NamesPaired(cal)
    requires FoundAll(cal, |cal|, unmerged, merged)
    requires EntryAfter(cal, |cal|, unmerged, t, e, e1)
    requires EntryAfter(Collapsed(cal), |Collapsed(cal)|, unmerged, t, e, e2)
    ensures e1 == e2
  {
    WantedSame(cal, t, ExAttr);
    WantedSame(cal, t, MtimeAttr);
    WantedSame(cal, t, SizeAttr);
    if i :| 0 <= i < |cal| && cal[i].toName == t {
      assert Found(cal[i], unmerged, merged);
      var p := Represented(cal, i);
      assert Collapsed(cal)[p].fromName in unmerged;
    } else {
      forall p | 0 <= p < |Collapsed(cal)|
        ensures Collapsed(cal)[p].CopyAttr? && Collapsed(cal)[p].toName != t
      {
        var i := ComesFrom(cal, p);
      }
    }
  }

  /** Running the collapsed list makes the same directory as running the whole list, or fails as it does. */
  ghost predicate RunsSame(cal: seq<Action>, merged: Children, unmerged: Children) {
    After(merged, StepsOf(Collapsed(cal), unmerged)) == After(merged, StepsOf(cal, unmerged))
  }

  /** It does so for lists with their names in pairs. */
  lemma CollapsedAttrsRunSame(merged: Children, unmerged: Children, cal: seq<Action>)
    requires AttrOnly(cal) && NamesPaired(cal)
    ensures RunsSame(cal, merged, unmerged)
  {
    var col := Collapsed(cal);
    CollapsedNames(cal);
    FoundSame(cal, unmerged, merged);
    AttrRun(merged, unmerged, cal);
    AttrRun(merged, unmerged, col);
    var a, b := After(merged, StepsOf(cal, unmerged)), After(merged, StepsOf(col, unmerged));
    if a.Some? {
      forall t | t in merged
        ensures a.value[t] == b.value[t]
      {
        EntrySame(cal, unmerged, merged, t, merged[t], a.value[t], b.value[t]);
      }
      SameMap(a.value, b.value);
    }
  }

  // ---------- Without pairs ----------

  /** The collapsed list has one action for a name. */
  lemma OneForName(cal: seq<Action>, k: string, p: nat)
    requires AttrOnly(cal) && p < |Collapsed(cal)| && Key(Collapsed(cal)[p]) == Some(k)
    ensures var t := Top(cal, |cal|, k); t.Some? && Collapsed(cal)[p] == Final(cal, |cal|, t.value)
  {
    var i := KeptFrom(cal, |cal|, p);
  }

  /** Of two merged names for one unmerged name, one is dropped. */
  lemma DropsName(cal: seq<Action>, i: nat, j: nat) returns (d: nat)
    requires AttrOnly(cal) && OneSource(cal) && i < |cal| && j < |cal|
    requires cal[i].fromName == cal[j].fromName && cal[i].toName != cal[j].toName
    ensures d < |cal| && forall p :: 0 <= p < |Collapsed(cal)| ==> NotTo(Collapsed(cal)[p], cal[d].toName)
  {
    var k := cal[i].fromName;
    OnlyAttrs(cal, |cal|, k);
    TopIsPreferred(cal, |cal|, k);
    FirstIsThere(cal, |cal|, i);
    var top := Top(cal, |cal|, k).value;
    d := if cal[top].toName == cal[i].toName then j else i;
    forall p | 0 <= p < |Collapsed(cal)|
      ensures NotTo(Collapsed(cal)[p], cal[d].toName)
    {
      var q := ComesFrom(cal, p);
      if cal[q].toName == cal[d].toName {
        OneForName(cal, k, p);
      }
    }
  }

  predicate NotTo(a: Action, t: string) {
    a.CopyAttr? && a.toName != t
  }

  function NamesTo(cal: seq<Action>): set<string> {
    set i | 0 <= i < |cal| && cal[i].CopyAttr? :: cal[i].toName
  }

  function NamesFrom(cal: seq<Action>): set<string> {
    set i | 0 <= i < |cal| && cal[i].CopyAttr? :: cal[i].fromName
  }

  function Filled(names: set<string>, e: DirEntry): Children {
    map n | n in names :: e
  }

  /** Directories with just the names that the collapsed list needs: only that list can be run. */
  lemma RunsDiffer(cal: seq<Action>, i: nat, j: nat, e: DirEntry)
    requires AttrOnly(cal) && OneSource(cal) && i < |cal| && j < |cal|
    requires cal[i].fromName == cal[j].fromName && cal[i].toName != cal[j].toName
    ensures !RunsSame(cal, Filled(NamesTo(Collapsed(cal)), e), Filled(NamesFrom(cal), e))
  {
    var col := Collapsed(cal);
    var merged, unmerged := Filled(NamesTo(col), e), Filled(NamesFrom(cal), e);
    var d := DropsName(cal, i, j);
    CollapsedNames(cal);
    AttrRun(merged, unmerged, cal);
    AttrRun(merged, unmerged, col);
    assert cal[d].toName !in merged;
    assert !Found(cal[d], unmerged, merged);
    forall p | 0 <= p < |col|
      ensures Found(col[p], unmerged, merged)
    {
      var q := ComesFrom(cal, p);
      assert col[p].toName in NamesTo(col) && cal[q].fromName in NamesFrom(cal);
    }
  }

  /** On every pair of directories the two runs are the same, exactly for the lists with their names in pairs. */
  lemma CollapsedAttrsExact(cal: seq<Action>)
    requires AttrOnly(cal) && OneSource(cal)
    ensures (forall merged, unmerged :: RunsSame(cal, merged, unmerged)) <==> NamesPaired(cal)
  {
    if NamesPaired(cal) {
      forall merged, unmerged
        ensures RunsSame(cal, merged, unmerged)
      {
        CollapsedAttrsRunSame(merged, unmerged, cal);
      }
    } else {
      var i, j :| 0 <= i < |cal| && 0 <= j < |cal|
                  && cal[i].fromName == cal[j].fromName && cal[i].toName != cal[j].toName;
      RunsDiffer(cal, i, j, DirEntry(ZERO_PTR, File, "", 0, 0, 0));
    }
  }

  lemma TwoCopiesCollapsed(cal: seq<Action>)
    requires |cal| == 2 && cal[0] == CopyAttr("f", "s", [MtimeAttr]) && cal[1] == CopyAttr("f", "t", [MtimeAttr])
    ensures Collapsed(cal) == [cal[0]]
  {
    assert Top(cal, 1, "f") == Some(0);
    assert Top(cal, 2, "f") == Some(0);
    var m := [MtimeAttr];
    assert |m[..|m| - 1]| == 0;
    assert AddAttrs(m, m) == m;
    assert Attrs(cal, 1, "f") == m && Attrs(cal, 2, "f") == m;
    assert Kept(cal, 1) == [cal[0]];
  }

  /** Two copies of one entry to two names: the second entry gets the time only from the whole list. */
  lemma CopiesToTwoNames(merged: Children, unmerged: Children)
    requires "s" in merged && "t" in merged && "f" in unmerged
    ensures var cal := [CopyAttr("f", "s", [MtimeAttr]), CopyAttr("f", "t", [MtimeAttr])];
            var whole, left := After(merged, StepsOf(cal, unmerged)), After(merged, StepsOf(Collapsed(cal), unmerged));
            && whole.Some? && "t" in whole.value && whole.value["t"].mtime == unmerged["f"].mtime
            && left.Some? && "t" in left.value && left.value["t"].mtime == merged["t"].mtime
  {
    var cal := [CopyAttr("f", "s", [MtimeAttr]), CopyAttr("f", "t", [MtimeAttr])];
    TwoCopiesCollapsed(cal);
    BothCopied(merged, unmerged, cal);
    FirstCopied(merged, unmerged, Collapsed(cal));
  }

  lemma BothCopied(merged: Children, unmerged: Children, cal: seq<Action>)
    requires "s" in merged && "t" in merged && "f" in unmerged
    requires |cal| == 2 && cal[0] == CopyAttr("f", "s", [MtimeAttr]) && cal[1] == CopyAttr("f", "t", [MtimeAttr])
    ensures var r := After(merged, StepsOf(cal, unmerged));
            r.Some? && "t" in r.value && r.value["t"].mtime == unmerged["f"].mtime
  {
    assert "s"[0] != "t"[0];
    AttrRun(merged, unmerged, cal);
    assert Asks(cal[1], "t", MtimeAttr);
    assert Wanted(cal, 2, "t", MtimeAttr);
  }

  lemma FirstCopied(merged: Children, unmerged: Children, cal: seq<Action>)
    requires "s" in merged && "t" in merged && "f" in unmerged
    requires |cal| == 1 && cal[0] == CopyAttr("f", "s", [MtimeAttr])
    ensures var r := After(merged, StepsOf(cal, unmerged));
            r.Some? && "t" in r.value && r.value["t"].mtime == merged["t"].mtime
  {
    assert "s"[0] != "t"[0];
    AttrRun(merged, unmerged, cal);
  }
}

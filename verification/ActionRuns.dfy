/** Carrying out the actions of a directory on its merged block (libkbfs/cr_actions.go,
    libkbfs/conflict_resolver.go). */
module ActionRuns {
  import opened Outcomes
  import opened Ops
  import opened Actions
  import opened ConflictNames

  datatype DirEntry = DirEntry(ptr: BlockPointer, entryType: EntryType, symPath: string, size: nat, encodedSize: nat,
                               mtime: int)

  type Children = map<string, DirEntry>

  function Linked(e: DirEntry, symPath: string): DirEntry {
    if symPath != "" then e.(entryType := Sym, symPath := symPath) else e
  }

  function WithSize(e: DirEntry, from: DirEntry): DirEntry {
    e.(size := from.size, encodedSize := from.encodedSize, ptr := from.ptr)
  }

  /** Copy an attribute; sized says whether the size is among those that are copied. */
  function WithAttr(e: DirEntry, from: DirEntry, x: AttrChange, sized: bool): DirEntry {
    match x
    case ExAttr => e.(entryType := from.entryType)
    case MtimeAttr => e.(mtime := from.mtime)
    case SizeAttr => if sized then WithSize(e, from) else e
  }

  function WithAttrs(e: DirEntry, from: DirEntry, attrs: seq<AttrChange>, sized: bool): DirEntry
    decreases |attrs|
  {
    if attrs == [] then e else WithAttrs(WithAttr(e, from, attrs[0], sized), from, attrs[1..], sized)
  }

  /** The children of the merged directory afterwards, whether all went well, and the name that was given or found. */
  datatype Outcome = Outcome(children: Children, ok: bool, name: string)

  /** copied is the pointer of the copy of the file's blocks, if they can be copied. */
  function CopyFile(from: Children, to: Children, fromName: string, toName: string, symPath: string,
                    copied: Option<BlockPointer>): Outcome
  {
    if fromName !in from then Outcome(to, false, toName)
    else
      var e := Linked(from[fromName], symPath);
      var name := UniqueName(to.Keys, toName);
      var copies := symPath == "" && IsInitialized(e.ptr);
      if e.entryType == Dir || name.None? || (copies && copied.None?) then Outcome(to, false, toName)
      else Outcome(to[name.value := e.(ptr := if copies then copied.value else ZERO_PTR)], true, name.value)
  }

  /** The merged entry moves away and the unmerged entry takes its name. */
  function MoveAside(unmerged: Children, merged: Children, fromName: string, toName: string, symPath: string): Outcome {
    if fromName !in merged then Outcome(merged, false, toName)
    else
      var name := UniqueName(merged.Keys, toName);
      if name.None? then Outcome(merged, false, toName)
      else
        var moved := merged[name.value := merged[fromName]];
        if fromName !in unmerged then Outcome(moved, false, name.value)
        else Outcome(moved[fromName := Linked(unmerged[fromName], symPath)], true, name.value)
  }

  /** What is kept of the unmerged entry when the block it is taken from was swapped for a merged one. */
  datatype Swap = Swap(entry: DirEntry, attr: seq<AttrChange>)

  function CopyInto(unmerged: Children, merged: Children, fromName: string, toName: string, symPath: string,
                    unique: bool, swap: Option<Swap>): Outcome
  {
    if fromName !in unmerged then Outcome(merged, false, toName)
    else
      var e := Linked(unmerged[fromName], symPath);
      var name := if unique then UniqueName(merged.Keys, toName) else Some(toName);
      if name.None? then Outcome(merged, false, toName)
      else
        var n := name.value;
        if swap.Some? && n in merged then Outcome(merged[n := WithSize(merged[n], e)], true, n)
        else if swap.Some? then
          Outcome(merged[n := WithAttrs(e, swap.value.entry, swap.value.attr, false)], true, n)
        else Outcome(merged[n := e], true, n)
  }

  function CopyAttrs(unmerged: Children, merged: Children, fromName: string, toName: string,
                     attr: seq<AttrChange>): Outcome
  {
    if fromName !in unmerged || toName !in merged then Outcome(merged, false, toName)
    else Outcome(merged[toName := WithAttrs(merged[toName], unmerged[fromName], attr, true)], true, toName)
  }

  function Remove(merged: Children, name: string): Outcome {
    if name in merged then Outcome(merged - {name}, true, name) else Outcome(merged, false, name)
  }

  /** The block that entries are taken from: the merged one itself, or another. */
  datatype Source = Itself | Block(children: Children)

  /** One action, where it takes entries from, and what it needs from outside. */
  datatype Step = Step(a: Action, source: Source, copied: Option<BlockPointer>, swap: Option<Swap>)

  function From(s: Step, merged: Children): Children {
    if s.source.Itself? then merged else s.source.children
  }

  predicate IsRename(a: Action) {
    a.RenameUnmerged? || a.RenameMerged?
  }

  /** Only copies of entries swap blocks. */
  predicate Takes(s: Step) {
    IsRename(s.a) || s.a.CopyAttr? ==> s.source.Block?
  }

  function Do(merged: Children, s: Step): Outcome {
    match s.a
    case RenameUnmerged(from, to, sym) => CopyFile(From(s, merged), merged, from, to, sym, s.copied)
    case RenameMerged(from, to, sym) => MoveAside(From(s, merged), merged, from, to, sym)
    case CopyEntry(from, to, sym, unique) => CopyInto(From(s, merged), merged, from, to, sym, unique, s.swap)
    case CopyAttr(from, to, attr) => CopyAttrs(From(s, merged), merged, from, to, attr)
    case RmMerged(name) => Remove(merged, name)
    case DropUnmerged(_) => Outcome(merged, true, "")
  }

  // ---------- No merged entry is lost ----------

  /** The action is meant to change or remove the merged entry of that name. */
  predicate Concerns(a: Action, name: string) {
    match a
    case CopyEntry(_, to, _, unique) => !unique && to == name
    case CopyAttr(_, to, _) => to == name
    case RmMerged(n) => n == name
    case _ => false
  }

  /** Where the entry that was called name is afterwards. */
  function Moved(o: Outcome, a: Action, name: string): string {
    if a.RenameMerged? && name == a.fromName then o.name else name
  }

  /** Every merged entry that the action does not concern is in the outcome under the name it moved to, and different
      entries moved to different names. */
  ghost predicate Keeps(merged: Children, a: Action, o: Outcome) {
    && (forall n :: n in merged && !Concerns(a, n) ==>
          Moved(o, a, n) in o.children && o.children[Moved(o, a, n)] == merged[n])
    && (forall m, n :: m in merged && n in merged && Moved(o, a, m) == Moved(o, a, n) ==> m == n)
  }

  lemma AddingKeeps(merged: Children, a: Action, o: Outcome, n: string)
    requires !a.RenameMerged? && (Concerns(a, n) || n !in merged)
    requires n in o.children && o.children == merged[n := o.children[n]]
    ensures Keeps(merged, a, o)
  {
  }

  lemma MovingKeeps(merged: Children, a: Action, o: Outcome)
    requires a.RenameMerged? && a.fromName in merged && o.name !in merged && a.fromName in o.children
    requires o.children == merged[o.name := merged[a.fromName]][a.fromName := o.children[a.fromName]]
    ensures Keeps(merged, a, o)
  {
  }

  lemma CopyFileAdds(from: Children, to: Children, fromName: string, toName: string, symPath: string,
                     copied: Option<BlockPointer>)
    requires CopyFile(from, to, fromName, toName, symPath, copied).ok
    ensures var o := CopyFile(from, to, fromName, toName, symPath, copied);
            o.name !in to && o.name in o.children && o.children == to[o.name := o.children[o.name]]
  {
    FoundNameIsFree(to.Keys, toName);
  }

  lemma MoveAsideMoves(unmerged: Children, merged: Children, fromName: string, toName: string, symPath: string)
    requires MoveAside(unmerged, merged, fromName, toName, symPath).ok
    ensures var o := MoveAside(unmerged, merged, fromName, toName, symPath);
            && o.name !in merged && fromName in merged && fromName in o.children
            && o.children == merged[o.name := merged[fromName]][fromName := o.children[fromName]]
  {
    FoundNameIsFree(merged.Keys, toName);
  }

  lemma CopyIntoAdds(unmerged: Children, merged: Children, fromName: string, toName: string, symPath: string,
                     unique: bool, swap: Option<Swap>)
    requires CopyInto(unmerged, merged, fromName, toName, symPath, unique, swap).ok
    ensures var o := CopyInto(unmerged, merged, fromName, toName, symPath, unique, swap);
            && (if unique then o.name !in merged else o.name == toName)
            && o.name in o.children && o.children == merged[o.name := o.children[o.name]]
  {
    FoundNameIsFree(merged.Keys, toName);
  }

  /** One action without error keeps every merged entry it does not concern. */
  lemma DoKeeps(merged: Children, s: Step)
    requires Do(merged, s).ok
    ensures Keeps(merged, s.a, Do(merged, s))
  {
    var o := Do(merged, s);
    match s.a
    case RenameUnmerged(from, to, sym) =>
      CopyFileAdds(From(s, merged), merged, from, to, sym, s.copied);
      AddingKeeps(merged, s.a, o, o.name);
    case RenameMerged(from, to, sym) =>
      MoveAsideMoves(From(s, merged), merged, from, to, sym);
      MovingKeeps(merged, s.a, o);
    case CopyEntry(from, to, sym, unique) =>
      CopyIntoAdds(From(s, merged), merged, from, to, sym, unique, s.swap);
      AddingKeeps(merged, s.a, o, o.name);
    case CopyAttr(_, to, _) => AddingKeeps(merged, s.a, o, to);
    case RmMerged(_) =>
    case DropUnmerged(_) =>
  }

  /** A rename adds one entry. */
  lemma RenameGrows(merged: Children, s: Step)
    requires IsRename(s.a) && Do(merged, s).ok
    ensures |Do(merged, s).children| == |merged| + 1
  {
    FoundNameIsFree(merged.Keys, s.a.toName);
  }

  /** And it brings in the unmerged entry: a copy under the new name, or the entry itself under the old one. */
  lemma RenameBringsIn(merged: Children, s: Step)
    requires IsRename(s.a) && Do(merged, s).ok
    ensures var o, unmerged := Do(merged, s), From(s, merged);
            var name := if s.a.RenameMerged? then s.a.fromName else o.name;
            && s.a.fromName in unmerged && name in o.children
            && var e, was := o.children[name], unmerged[s.a.fromName];
               && (s.a.symPath != "" ==> e.entryType == Sym && e.symPath == s.a.symPath)
               && (s.a.symPath == "" ==> e.entryType == was.entryType && e.symPath == was.symPath)
               && e.size == was.size && e.encodedSize == was.encodedSize && e.mtime == was.mtime
               && (s.a.RenameMerged? ==> e.ptr == was.ptr)
               && (s.a.RenameUnmerged? ==>
                     e.ptr == if s.a.symPath == "" && IsInitialized(was.ptr) then s.copied.value else ZERO_PTR)
  {
  }

  /** The entry that copying leaves: the unmerged one, as a link if so asked.  If its block was swapped, a merged entry
      of that name only takes its size and block, and a new one the attributes set on the unmerged branch. */
  ghost predicate Copied(e: DirEntry, was: DirEntry, symPath: string, there: Option<DirEntry>, swap: Option<Swap>)
  {
    && e.size == was.size && e.encodedSize == was.encodedSize && e.ptr == was.ptr
    && (if swap.Some? && there.Some? then
          e.entryType == there.value.entryType && e.symPath == there.value.symPath && e.mtime == there.value.mtime
        else
          && e.symPath == (if symPath != "" then symPath else was.symPath)
          && e.entryType == (if swap.Some? && ExAttr in swap.value.attr then swap.value.entry.entryType
                             else if symPath != "" then Sym else was.entryType)
          && e.mtime == (if swap.Some? && MtimeAttr in swap.value.attr then swap.value.entry.mtime else was.mtime))
  }

  lemma {:induction false} SizelessAttrs(e: DirEntry, from: DirEntry, attrs: seq<AttrChange>)
    ensures var e' := WithAttrs(e, from, attrs, false);
            && e'.entryType == (if ExAttr in attrs then from.entryType else e.entryType)
            && e'.mtime == (if MtimeAttr in attrs then from.mtime else e.mtime)
            && e'.size == e.size && e'.encodedSize == e.encodedSize && e'.ptr == e.ptr && e'.symPath == e.symPath
    decreases |attrs|
  {
    if attrs != [] {
      SizelessAttrs(WithAttr(e, from, attrs[0], false), from, attrs[1..]);
    }
  }

  /** Copying an entry succeeds exactly if it is there and a name is found, and puts it under that name. */
  lemma CopyEntryPuts(merged: Children, s: Step)
    requires s.a.CopyEntry?
    ensures var o, unmerged, name := Do(merged, s), From(s, merged), UniqueName(merged.Keys, s.a.toName);
            && (o.ok <==> s.a.fromName in unmerged && (s.a.unique ==> name.Some?))
            && (o.ok ==> o.name == (if s.a.unique then name.value else s.a.toName) && o.name in o.children)
            && (o.ok ==>
                  Copied(o.children[o.name], unmerged[s.a.fromName], s.a.symPath,
                         if o.name in merged then Some(merged[o.name]) else None, s.swap))
  {
    var unmerged := From(s, merged);
    if s.a.fromName in unmerged && s.swap.Some? {
      SizelessAttrs(Linked(unmerged[s.a.fromName], s.a.symPath), s.swap.value.entry, s.swap.value.attr);
    }
  }

  /** Removing succeeds exactly if the entry is there, and then it is gone and all others are as they were. */
  lemma RemoveTakesOut(merged: Children, s: Step)
    requires s.a.RmMerged?
    ensures var o := Do(merged, s);
            && (o.ok <==> s.a.name in merged)
            && (forall n :: n in o.children <==> n in merged && n != s.a.name)
            && (forall n :: n in o.children ==> o.children[n] == merged[n])
  {
  }

  /** The name under which an action adds an entry, if the name was not there. */
  function NewName(merged: Children, a: Action): Option<string> {
    match a
    case RenameUnmerged(_, to, _) => UniqueName(merged.Keys, to)
    case RenameMerged(_, to, _) => UniqueName(merged.Keys, to)
    case CopyEntry(_, to, _, unique) => if unique then UniqueName(merged.Keys, to) else Some(to)
    case _ => None
  }

  /** The names of the directory after an action that succeeds: those there were, without a removed one, and the new
      one. */
  lemma NamesAfterAction(merged: Children, s: Step, n: string)
    requires Do(merged, s).ok
    ensures n in Do(merged, s).children
            <==> (n in merged && s.a != RmMerged(n)) || NewName(merged, s.a) == Some(n)
  {
    if IsRename(s.a) {
      FoundNameIsFree(merged.Keys, s.a.toName);
    }
  }

  /** The children after a run, if every action succeeds. */
  function After(merged: Children, steps: seq<Step>): Option<Children> {
    if |steps| == 0 then Some(merged)
    else
      var before := After(merged, steps[..|steps| - 1]);
      if before.None? then None
      else
        var o := Do(before.value, steps[|steps| - 1]);
        if o.ok then Some(o.children) else None
  }

  /** Where the entry that was called name is after the run. */
  function WhereIs(merged: Children, steps: seq<Step>, name: string): string
    requires After(merged, steps).Some?
  {
    if |steps| == 0 then name
    else
      var p, s := steps[..|steps| - 1], steps[|steps| - 1];
      Moved(Do(After(merged, p).value, s), s.a, WhereIs(merged, p, name))
  }

  /** No action of the run concerns the entry under the name it then has. */
  predicate LeftAlone(merged: Children, steps: seq<Step>, name: string)
    requires After(merged, steps).Some?
  {
    |steps| == 0 ||
    var p := steps[..|steps| - 1];
    LeftAlone(merged, p, name) && !Concerns(steps[|steps| - 1].a, WhereIs(merged, p, name))
  }

  /** Any list of actions that runs without error keeps every merged entry that none of them concerns. */
  lemma {:induction false} EntryIsKept(merged: Children, steps: seq<Step>, n: string)
    requires After(merged, steps).Some? && n in merged && LeftAlone(merged, steps, n)
    ensures var after, w := After(merged, steps).value, WhereIs(merged, steps, n);
            w in after && after[w] == merged[n]
  {
    if |steps| > 0 {
      EntryIsKept(merged, steps[..|steps| - 1], n);
      DoKeeps(After(merged, steps[..|steps| - 1]).value, steps[|steps| - 1]);
    }
  }

  /** And it keeps different ones under different names. */
  lemma {:induction false} EntriesStayApart(merged: Children, steps: seq<Step>, m: string, n: string)
    requires After(merged, steps).Some? && m in merged && n in merged && m != n
    requires LeftAlone(merged, steps, m) && LeftAlone(merged, steps, n)
    ensures WhereIs(merged, steps, m) != WhereIs(merged, steps, n)
  {
    if |steps| > 0 {
      var p := steps[..|steps| - 1];
      EntriesStayApart(merged, p, m, n);
      EntryIsKept(merged, p, m);
      EntryIsKept(merged, p, n);
      DoKeeps(After(merged, p).value, steps[|steps| - 1]);
    }
  }

  /** Action i removes the entry. */
  predicate RemovesAt(steps: seq<Step>, n: string, i: nat) {
    i < |steps| && steps[i].a == RmMerged(n)
  }

  /** Action i adds an entry of that name, as the directory then is. */
  predicate AddsAt(merged: Children, steps: seq<Step>, n: string, i: nat) {
    i < |steps| && After(merged, steps[..i]).Some? && NewName(After(merged, steps[..i]).value, steps[i].a) == Some(n)
  }

  /** Of the actions that add or remove the name, the last decides. */
  ghost predicate LastAdds(merged: Children, steps: seq<Step>, n: string, there: bool) {
    if exists i :: RemovesAt(steps, n, i) || AddsAt(merged, steps, n, i) then
      exists i :: AddsAt(merged, steps, n, i) && forall j :: i < j ==> !RemovesAt(steps, n, j)
    else there
  }

  /** A run of actions that succeeds leaves a name exactly if the last action to add or remove it adds it, or if it was
      there and none does: in particular an entry that is removed, and not added again later, is gone. */
  lemma {:induction false} NamesAfterRun(merged: Children, steps: seq<Step>, n: string)
    requires After(merged, steps).Some?
    ensures n in After(merged, steps).value <==> LastAdds(merged, steps, n, n in merged)
  {
    if |steps| > 0 {
      var k := |steps| - 1;
      var p := steps[..k];
      NamesAfterRun(merged, p, n);
      NamesAfterAction(After(merged, p).value, steps[k], n);
      LastAddsMore(merged, steps, n, n in merged);
    }
  }

  lemma LastAddsMore(merged: Children, steps: seq<Step>, n: string, there: bool)
    requires |steps| > 0
    ensures var k := |steps| - 1;
            LastAdds(merged, steps, n, there)
            <==> AddsAt(merged, steps, n, k)
                 || (!RemovesAt(steps, n, k) && LastAdds(merged, steps[..k], n, there))
  {
    var k := |steps| - 1;
    var p := steps[..k];
    forall i: nat | i < k
      ensures RemovesAt(steps, n, i) <==> RemovesAt(p, n, i)
      ensures AddsAt(merged, steps, n, i) <==> AddsAt(merged, p, n, i)
    {
      assert p[..i] == steps[..i];
    }
    assert !(RemovesAt(steps, n, k) && AddsAt(merged, steps, n, k));
  }

  predicate AllRenames(steps: seq<Step>) {
    forall i :: 0 <= i < |steps| ==> IsRename(steps[i].a)
  }

  lemma {:induction false} RenamesConcernNone(merged: Children, steps: seq<Step>, n: string)
    requires AllRenames(steps) && After(merged, steps).Some?
    ensures LeftAlone(merged, steps, n)
  {
    if |steps| > 0 {
      RenamesConcernNone(merged, steps[..|steps| - 1], n);
    }
  }

  lemma {:induction false} RenamesGrow(merged: Children, steps: seq<Step>)
    requires AllRenames(steps) && After(merged, steps).Some?
    ensures |After(merged, steps).value| == |merged| + |steps|
  {
    if |steps| > 0 {
      RenamesGrow(merged, steps[..|steps| - 1]);
      RenameGrows(After(merged, steps[..|steps| - 1]).value, steps[|steps| - 1]);
    }
  }

  /** Any list of renames that runs without error keeps every merged entry, each under its own name, and adds
      exactly one entry per action. */
  lemma RenamesKeepAll(merged: Children, steps: seq<Step>)
    requires AllRenames(steps) && After(merged, steps).Some?
    ensures var after := After(merged, steps).value;
            && |after| == |merged| + |steps|
            && (forall n :: n in merged ==>
                  WhereIs(merged, steps, n) in after && after[WhereIs(merged, steps, n)] == merged[n])
            && (forall m, n :: m in merged && n in merged && m != n ==>
                  WhereIs(merged, steps, m) != WhereIs(merged, steps, n))
  {
    RenamesGrow(merged, steps);
    forall n | n in merged
      ensures var w := WhereIs(merged, steps, n); w in After(merged, steps).value
                                                  && After(merged, steps).value[w] == merged[n]
    {
      RenamesConcernNone(merged, steps, n);
      EntryIsKept(merged, steps, n);
    }
    forall m, n | m in merged && n in merged && m != n
      ensures WhereIs(merged, steps, m) != WhereIs(merged, steps, n)
    {
      RenamesConcernNone(merged, steps, m);
      RenamesConcernNone(merged, steps, n);
      EntriesStayApart(merged, steps, m, n);
    }
  }

  /** Every name that would be tried is taken. */
  ghost predicate AllTaken(children: Children, name: string) {
    forall j :: 0 <= j <= TRIES ==> Candidate(name, j) in children
  }

  lemma AllTakenIs(children: Children, name: string)
    ensures UniqueName(children.Keys, name).None? <==> AllTaken(children, name)
    ensures AllTaken(children, name) ==> |children| > TRIES
  {
    var names := Names(name, TRIES + 1);
    UniqueNameIsFree(children.Keys, name);
    if UniqueName(children.Keys, name).Some? {
      var j :| IsFirstFree(children.Keys, names, 0, j) && UniqueName(children.Keys, name).value == Candidate(name, j);
      assert Candidate(name, j) !in children;
    } else {
      forall j | 0 <= j <= TRIES
        ensures Candidate(name, j) in children
      {
        NamesAt(name, TRIES + 1, j);
        assert names[j] in children.Keys;
      }
    }
    assert |children.Keys| == |children|;
  }

  /** The action finds the entries it names, and a free name where it needs one; a directory is not copied as a file,
      and a file with blocks only if they can be copied. */
  ghost predicate Doable(merged: Children, s: Step) {
    var unmerged := From(s, merged);
    match s.a
    case RenameUnmerged(from, to, sym) =>
      && from in unmerged && !AllTaken(merged, to)
      && (sym == "" ==> unmerged[from].entryType != Dir && (IsInitialized(unmerged[from].ptr) ==> s.copied.Some?))
    case RenameMerged(from, to, _) => from in merged && from in unmerged && !AllTaken(merged, to)
    case CopyEntry(from, to, _, unique) => from in unmerged && (unique ==> !AllTaken(merged, to))
    case CopyAttr(from, to, _) => from in unmerged && to in merged
    case RmMerged(name) => name in merged
    case DropUnmerged(_) => true
  }

  /** When an action succeeds.  For want of a free name it fails only in a directory of more than a hundred entries. */
  lemma DoSucceeds(merged: Children, s: Step)
    ensures Do(merged, s).ok <==> Doable(merged, s)
  {
    match s.a
    case RenameUnmerged(_, to, _) => AllTakenIs(merged, to);
    case RenameMerged(_, to, _) => AllTakenIs(merged, to);
    case CopyEntry(_, to, _, _) => AllTakenIs(merged, to);
    case _ =>
  }

  /** What an action that fails leaves: the directory as it was, except that a merged entry already copied aside when
      the unmerged one is found missing is then there twice. */
  lemma FailureLeaves(merged: Children, s: Step)
    requires !Do(merged, s).ok
    ensures var o := Do(merged, s);
            if s.a.RenameMerged? && s.a.fromName in merged && !AllTaken(merged, s.a.toName) then
              o.name !in merged && o.children == merged[o.name := merged[s.a.fromName]]
            else o.children == merged
  {
    if s.a.RenameMerged? {
      AllTakenIs(merged, s.a.toName);
      FoundNameIsFree(merged.Keys, s.a.toName);
    }
  }

  // ---------- Attributes ----------

  /** Copied attributes are exactly those asked for, in whatever order and however often. */
  lemma {:induction false} WithAttrsIs(e: DirEntry, from: DirEntry, attrs: seq<AttrChange>)
    ensures var e' := WithAttrs(e, from, attrs, true);
            && e'.entryType == (if ExAttr in attrs then from.entryType else e.entryType)
            && e'.mtime == (if MtimeAttr in attrs then from.mtime else e.mtime)
            && e'.size == (if SizeAttr in attrs then from.size else e.size)
            && e'.encodedSize == (if SizeAttr in attrs then from.encodedSize else e.encodedSize)
            && e'.ptr == (if SizeAttr in attrs then from.ptr else e.ptr)
            && e'.symPath == e.symPath
    decreases |attrs|
  {
    if attrs != [] {
      WithAttrsIs(WithAttr(e, from, attrs[0], true), from, attrs[1..]);
    }
  }

  /** The attribute copy that collapse leaves of two has the effect of both. */
  lemma MergedAttrsSame(e: DirEntry, from: DirEntry, a: seq<AttrChange>, b: seq<AttrChange>)
    ensures WithAttrs(WithAttrs(e, from, a, true), from, b, true) == WithAttrs(e, from, AddAttrs(a, b), true)
  {
    var once := WithAttrs(e, from, a, true);
    WithAttrsIs(e, from, a);
    WithAttrsIs(once, from, b);
    WithAttrsIs(e, from, AddAttrs(a, b));
    forall x
      ensures x in AddAttrs(a, b) <==> x in a || x in b
    {
      AddAttrsIs(a, b, x);
    }
  }

  // ---------- The directory block ----------

  class DirBlock {
    var children: Children

    constructor (children: Children)
      ensures this.children == children
    {
      this.children := children;
    }

    /** Copy a file of another directory into this one, under a name that is not taken. */
    method CopyFrom(from: DirBlock, fromName: string, toName: string, symPath: string, copied: Option<BlockPointer>)
      returns (ok: bool, name: string)
      modifies this
      ensures Outcome(children, ok, name)
              == CopyFile(old(from.children), old(children), fromName, toName, symPath, copied)
    {
      if fromName !in from.children {
        return false, toName;
      }
      var e := from.children[fromName];
      if symPath != "" {
        e := e.(entryType := Sym, symPath := symPath);
      }
      if e.entryType == Dir {
        return false, toName;
      }
      var newName := UniquifyName(children.Keys, toName);
      if newName.None? {
        return false, toName;
      }
      var ptr := ZERO_PTR;
      if symPath == "" && IsInitialized(e.ptr) {
        if copied.None? {
          return false, toName;
        }
        ptr := copied.value;
      }
      children := children[newName.value := e.(ptr := ptr)];
      return true, newName.value;
    }

    /** Rename an entry of this directory and add the unmerged one under the old name. */
    method RenameMergedEntry(unmerged: DirBlock, fromName: string, toName: string, symPath: string)
      returns (ok: bool, name: string)
      requires unmerged != this
      modifies this
      ensures Outcome(children, ok, name) == MoveAside(unmerged.children, old(children), fromName, toName, symPath)
    {
      if fromName !in children {
        return false, toName;
      }
      var newName := UniquifyName(children.Keys, toName);
      if newName.None? {
        return false, toName;
      }
      children := children[newName.value := children[fromName]];
      if fromName !in unmerged.children {
        return false, newName.value;
      }
      var e := unmerged.children[fromName];
      if symPath != "" {
        e := e.(entryType := Sym, symPath := symPath);
      }
      children := children[fromName := e];
      return true, newName.value;
    }

    /** Copy an entry, or only its size if the block was swapped.  The other block may be this one. */
    method CopyEntryFrom(unmerged: DirBlock, fromName: string, toName: string, symPath: string, unique: bool,
                         swap: Option<Swap>)
      returns (ok: bool, name: string)
      modifies this
      ensures Outcome(children, ok, name)
              == CopyInto(old(unmerged.children), old(children), fromName, toName, symPath, unique, swap)
    {
      if fromName !in unmerged.children {
        return false, toName;
      }
      var e := unmerged.children[fromName];
      if symPath != "" {
        e := e.(entryType := Sym, symPath := symPath);
      }
      var n := toName;
      if unique {
        var newName := UniquifyName(children.Keys, toName);
        if newName.None? {
          return false, toName;
        }
        n := newName.value;
      }
      if swap.Some? {
        if n in children {
          children := children[n := WithSize(children[n], e)];
          return true, n;
        }
        e := CopyAll(e, swap.value.entry, swap.value.attr, false);
      }
      children := children[n := e];
      return true, n;
    }

    method CopyAttrsFrom(unmerged: DirBlock, fromName: string, toName: string, attr: seq<AttrChange>)
      returns (ok: bool)
      modifies this
      ensures Outcome(children, ok, toName)
              == CopyAttrs(old(unmerged.children), old(children), fromName, toName, attr)
    {
      if fromName !in unmerged.children || toName !in children {
        return false;
      }
      var e := CopyAll(children[toName], unmerged.children[fromName], attr, true);
      children := children[toName := e];
      return true;
    }

    method RemoveEntry(name: string) returns (ok: bool)
      modifies this
      ensures Outcome(children, ok, name) == Remove(old(children), name)
    {
      if name !in children {
        return false;
      }
      children := children - {name};
      return true;
    }

    /** Carry out one action. */
    method DoAction(s: Step) returns (ok: bool)
      requires Takes(s)
      modifies this
      ensures var o := Do(old(children), s); children == o.children && ok == o.ok
    {
      var unmerged := this;
      if s.source.Block? {
        unmerged := new DirBlock(s.source.children);
      }
      var name := "";
      match s.a {
        case RenameUnmerged(from, to, sym) => ok, name := CopyFrom(unmerged, from, to, sym, s.copied);
        case RenameMerged(from, to, sym) => ok, name := RenameMergedEntry(unmerged, from, to, sym);
        case CopyEntry(from, to, sym, unique) => ok, name := CopyEntryFrom(unmerged, from, to, sym, unique, s.swap);
        case CopyAttr(from, to, attr) => ok := CopyAttrsFrom(unmerged, from, to, attr);
        case RmMerged(n) => ok := RemoveEntry(n);
        case DropUnmerged(_) => ok := true;
      }
    }

    /** Carry out the actions in order, up to the first that fails. */
    method DoActions(steps: seq<Step>) returns (ok: bool)
      requires forall i :: 0 <= i < |steps| ==> Takes(steps[i])
      modifies this
      ensures ok <==> After(old(children), steps).Some?
      ensures ok ==> children == After(old(children), steps).value
    {
      var i := 0;
      while i < |steps|
        invariant i <= |steps| && After(old(children), steps[..i]) == Some(children)
      {
        assert steps[..i + 1][..i] == steps[..i];
        ok := DoAction(steps[i]);
        if !ok {
          FailureStays(old(children), steps, i + 1);
          return;
        }
        i := i + 1;
      }
      assert steps[..|steps|] == steps;
      ok := true;
    }
  }

  method CopyAll(e0: DirEntry, from: DirEntry, attrs: seq<AttrChange>, sized: bool) returns (e: DirEntry)
    ensures e == WithAttrs(e0, from, attrs, sized)
  {
    e := e0;
    var i := 0;
    while i < |attrs|
      invariant i <= |attrs| && WithAttrs(e0, from, attrs, sized) == WithAttrs(e, from, attrs[i..], sized)
    {
      assert attrs[i..][1..] == attrs[i + 1..];
      e := WithAttr(e, from, attrs[i], sized);
      i := i + 1;
    }
  }

  lemma {:induction false} FailureStays(merged: Children, steps: seq<Step>, k: nat)
    requires k <= |steps| && After(merged, steps[..k]).None?
    ensures After(merged, steps).None?
  {
    if k == |steps| {
      assert steps[..k] == steps;
    } else {
      assert steps[..|steps| - 1][..k] == steps[..k];
      FailureStays(merged, steps[..|steps| - 1], k);
    }
  }
}

/** Building the chains of a branch: follow every operation, then collapse every chain (libkbfs/cr_chains.go). */
module ChainBuild {
  import opened Collections
  import opened Ops
  import opened Outcomes
  import opened ChainCollapse
  import opened ChainIndex
  import opened ChainRuns

  type OpMap = map<BlockPointer, seq<Op>>

  function Changes(ops: seq<Op>): (cs: seq<Change>) {
    seq(|ops|, i requires 0 <= i < |ops| => ChangeOf(ops[i]))
  }

  /** The operations of the nodes, collapsed for the nodes in done. */
  ghost function CollapsedOn(ops: OpMap, done: set<BlockPointer>): OpMap {
    map o | o in ops :: if o in done then Collapsed(ops[o]) else ops[o]
  }

  ghost function CollapsedEach(ops: OpMap): OpMap {
    map o | o in ops :: Collapsed(ops[o])
  }

  lemma CollapsedOnMore(ops: OpMap, done: set<BlockPointer>, o: BlockPointer, x: BlockPointer)
    requires o !in done
    ensures OpsOn(CollapsedOn(ops, done + {o}), x) ==
            if x == o then Collapsed(OpsOn(CollapsedOn(ops, done), o)) else OpsOn(CollapsedOn(ops, done), x)
  {
  }

  /** Collapse one chain of the index. */
  method CollapseAt(ccs: CrChains, o: BlockPointer, ghost tip: Pointers, ghost curr: Pointers, ghost ops: OpMap,
                    ghost done: set<BlockPointer>)
    requires ccs.Indexes(tip, curr, CollapsedOn(ops, done)) && o in ccs.byOriginal && o !in done
    modifies ccs.chains`ops
    ensures ccs.Indexes(tip, curr, CollapsedOn(ops, done + {o}))
  {
    var chain := ccs.byOriginal[o];
    ghost var was := CollapsedOn(ops, done);
    chain.Collapse();
    forall x | x in ccs.byOriginal
      ensures ccs.byOriginal[x].ops == OpsOn(CollapsedOn(ops, done + {o}), x)
    {
      CollapsedOnMore(ops, done, o, x);
      assert old(ccs.byOriginal[x].original) == x;
    }
  }

  method CollapseAll(ccs: CrChains, ghost tip: Pointers, ghost curr: Pointers, ghost ops: OpMap)
    requires ccs.Indexes(tip, curr, ops)
    modifies ccs.chains`ops
    ensures ccs.Indexes(tip, curr, CollapsedEach(ops))
  {
    var todo := ccs.byOriginal.Keys;
    ghost var done: set<BlockPointer> := {};
    assert CollapsedOn(ops, {}) == ops;
    while todo != {}
      invariant forall o :: o in ccs.byOriginal <==> o in todo || o in done
      invariant forall o :: o in todo ==> o !in done
      invariant ccs.Indexes(tip, curr, CollapsedOn(ops, done))
      decreases |todo|
    {
      var o := AnyOf(todo);
      CollapseAt(ccs, o, tip, curr, ops, done);
      todo, done := todo - {o}, done + {o};
    }
    forall o | o in ccs.byOriginal
      ensures ccs.byOriginal[o].ops == OpsOn(CollapsedEach(ops), o)
    {
      assert OpsOn(CollapsedOn(ops, done), o) == OpsOn(CollapsedEach(ops), o);
    }
  }

  /** The chains of a list of operations, or failure if one of them lands nowhere. */
  method NewCRChains(ops: seq<Op>) returns (ccs: CrChains, ok: bool)
    requires AdmissibleRun(Changes(ops))
    ensures ok <==> Run(Changes(ops)).Ok?
    ensures ok ==> var v := Run(Changes(ops)).value; ccs.Holds(v.(ops := CollapsedEach(v.ops)))
  {
    ghost var v;
    ccs, ok, v := FollowAll(ops);
    if ok {
      CollapseAll(ccs, v.tip, v.curr, v.ops);
    }
  }

  method FollowAll(ops: seq<Op>) returns (ccs: CrChains, ok: bool, ghost v: View)
    requires AdmissibleRun(Changes(ops))
    ensures ok <==> Run(Changes(ops)).Ok?
    ensures ok ==> v == Run(Changes(ops)).value && ccs.Holds(v) && fresh(ccs) && fresh(ccs.chains)
  {
    ccs := new CrChains();
    v := NO_NODES;
    ghost var cs := Changes(ops);
    for i := 0 to |ops|
      invariant Run(cs[..i]) == Ok(v) && ccs.Holds(v) && fresh(ccs) && fresh(ccs.chains)
    {
      RunPrefix(cs, i);
      RunKeepsNodes(cs[..i]);
      ok := ccs.MakeChainForOp(ops[i], v);
      if !ok {
        return;
      }
      v := Performed(v, cs[i]).value;
    }
    assert cs[..|ops|] == cs;
    ok := true;
  }

  /** What an admissible run says about its first i changes and the next one. */
  lemma {:induction false} RunPrefix(cs: seq<Change>, i: nat)
    requires i < |cs| && AdmissibleRun(cs)
    ensures AdmissibleRun(cs[..i])
    ensures Run(cs[..i]).Ok? ==> AdmissibleChange(Run(cs[..i]).value, cs[i])
    ensures Run(cs[..i + 1]) == if Run(cs[..i]).Err? then Err else Performed(Run(cs[..i]).value, cs[i])
    ensures Run(cs[..i + 1]).Err? ==> Run(cs).Err?
  {
    var p := cs[..|cs| - 1];
    assert cs[..i + 1][..i] == cs[..i];
    if i == |p| {
      assert cs[..i + 1] == cs;
    } else {
      RunPrefix(p, i);
      assert p[..i] == cs[..i] && p[..i + 1] == cs[..i + 1];
    }
  }

  // ---------- When the chains can be built ----------

  /** The directory a rename moves into; a rename within one directory leaves newDir unset. */
  function NewDirOf(op: Op): BlockUpdate
    requires op.RenameOp?
  {
    if op.newDir == NO_UPDATE then op.oldDir else op.newDir
  }

  /** A rename has its directories set, and what it does to the old one leaves the new one where it was put. */
  predicate Lands(op: Op) {
    op.RenameOp? ==>
      && IsInitialized(op.oldDir.unref)
      && IsInitialized(NewDirOf(op).unref)
      && (op.common.unrefs != [] ==> IsInitialized(NewDirOf(op).ref))
      && (op.newDir != NO_UPDATE && op.oldDir.unref == op.newDir.ref ==> op.oldDir.ref == op.newDir.ref)
  }

  lemma LastIsCurrent(v: View, us: seq<BlockUpdate>, u: BlockUpdate)
    ensures MovedAll(v, us + [u]) == Moved(MovedAll(v, us), u) && u.ref in MovedAll(v, us + [u]).curr
  {
    assert (us + [u])[..|us|] == us;
  }

  /** After the updates of a rename its old directory is current, and so is its new one unless the old one was put on
      top of it. */
  lemma RenameTargets(v: View, op: Op)
    requires op.RenameOp?
    ensures op.oldDir.ref in MovedAll(v, AllUpdates(op)).curr
    ensures NewDirOf(op).ref in MovedAll(v, AllUpdates(op)).curr <==>
            (op.newDir != NO_UPDATE && op.oldDir.unref == op.newDir.ref ==> op.oldDir.ref == op.newDir.ref)
  {
    var us := op.common.updates;
    if op.newDir == NO_UPDATE {
      LastIsCurrent(v, us, op.oldDir);
    } else {
      LastIsCurrent(v, us, op.newDir);
      LastIsCurrent(v, us + [op.newDir], op.oldDir);
      assert us + [op.newDir] + [op.oldDir] == us + [op.newDir, op.oldDir];
    }
  }

  lemma {:induction false} AllCurrentIs(curr: Pointers, es: seq<Landing>)
    ensures AllCurrent(curr, es) <==> forall e :: e in es ==> e.at in curr
  {
    if es != [] {
      AllCurrentIs(curr, es[..|es| - 1]);
      assert es == es[..|es| - 1] + [es[|es| - 1]];
    }
  }

  lemma RenameEntries(op: Op, x: BlockPointer)
    requires op.RenameOp?
    ensures var es := Entries(ChangeOf(op), x);
            && es != [] && es[0].at == op.oldDir.ref && es[|es| - 1].at == NewDirOf(op).ref
            && forall e :: e in es ==> e.at == op.oldDir.ref || e.at == NewDirOf(op).ref
  {
  }

  lemma RenameLands(v: View, op: Op)
    requires op.RenameOp?
    ensures Performed(v, ChangeOf(op)).Ok? <==> Lands(op)
  {
    var c := ChangeOf(op);
    var w := Prepared(v, c);
    var es := Entries(c, Root(w, NodeOf(c)));
    RenameTargets(v, op);
    RenameEntries(op, Root(w, NodeOf(c)));
    AllCurrentIs(w.curr, es);
    assert es[0] in es && es[|es| - 1] in es;
  }

  lemma PlainLands(v: View, c: Change, us: seq<BlockUpdate>, u: BlockUpdate)
    requires c.valid && c.made.None? && |c.lands| == 1 && c.lands[0].at == u.ref && Updates(v, c) == us + [u]
    ensures Performed(v, c).Ok?
  {
    LastIsCurrent(v, us, u);
    AllCurrentIs(Prepared(v, c).curr, c.lands);
  }

  lemma SetAttrLands(v: View, op: Op)
    requires op.SetAttrOp?
    ensures Performed(v, ChangeOf(op)).Ok?
  {
    var c := ChangeOf(op);
    if op.target in MovedAll(v, c.updates).curr {
      AllCurrentIs(Prepared(v, c).curr, c.lands);
    } else {
      PlainLands(v, c, c.updates, BlockUpdate(op.target, op.target));
    }
  }

  /** Whatever came before it, an operation other than a rename always finds its node; a rename does exactly if its
      directories are set and the new one is not replaced by the old one. */
  lemma LandsExact(v: View, op: Op)
    ensures Performed(v, ChangeOf(op)).Ok? <==> Lands(op)
  {
    match op
    case RenameOp(_, _, _, _, _, _, _) => RenameLands(v, op);
    case SetAttrOp(_, _, _, _, _) => SetAttrLands(v, op);
    case CreateOp(common, _, dir, _, _) => PlainLands(v, ChangeOf(op), common.updates, dir);
    case RmOp(common, _, dir) => PlainLands(v, ChangeOf(op), common.updates, dir);
    case SyncOp(common, file) => PlainLands(v, ChangeOf(op), common.updates, file);
    case _ =>
  }

  ghost predicate AllLand(ops: seq<Op>) {
    forall op :: op in ops ==> Lands(op)
  }

  lemma AllLandMore(ops: seq<Op>, before: seq<Op>, last: Op)
    requires ops == before + [last]
    ensures AllLand(ops) <==> AllLand(before) && Lands(last)
  {
    assert last in ops && forall op :: op in before ==> op in ops;
  }

  lemma {:induction false} LastChange(ops: seq<Op>)
    requires ops != []
    ensures Changes(ops) != [] && Changes(ops)[..|Changes(ops)| - 1] == Changes(ops[..|ops| - 1])
    ensures Changes(ops)[|Changes(ops)| - 1] == ChangeOf(ops[|ops| - 1])
  {
  }

  ghost predicate Builds(cs: seq<Change>) {
    Run(cs).Ok?
  }

  lemma BuildsNothing(ops: seq<Op>)
    requires ops == []
    ensures Builds(Changes(ops))
  {
    assert |Changes(ops)| == 0;
  }

  lemma {:induction false} BuildStep(cs: seq<Change>, before: seq<Change>, op: Op)
    requires cs != [] && before == cs[..|cs| - 1] && cs[|cs| - 1] == ChangeOf(op)
    ensures Builds(cs) <==> Builds(before) && Lands(op)
  {
    if Run(before).Ok? {
      LandsExact(Run(before).value, op);
    }
  }

  /** The chains of a branch can be built exactly if every one of its operations lands. */
  lemma {:induction false} BuildsExact(ops: seq<Op>)
    ensures Builds(Changes(ops)) <==> AllLand(ops)
  {
    if ops == [] {
      BuildsNothing(ops);
    } else {
      var before, op := ops[..|ops| - 1], ops[|ops| - 1];
      BuildsExact(before);
      LastChange(ops);
      BuildStep(Changes(ops), Changes(before), op);
      AllLandMore(ops, before, op);
    }
  }

  // ---------- Renames, created and deleted nodes, read off the operations ----------

  /** The rename of an operation, its node and directories traced back through the branch's updates so far. */
  function RenameEvent(us: seq<BlockUpdate>, op: Op): Event
    requires op.RenameOp?
  {
    Event(Origin(us, op.node), Origin(us, op.oldDir.ref), op.oldName, Origin(us, NewDirOf(op).ref), op.newName)
  }

  function RenameEvents(ops: seq<Op>): seq<Event> {
    if ops == [] then []
    else
      var op := ops[|ops| - 1];
      RenameEvents(ops[..|ops| - 1]) +
      if op.RenameOp? && IsInitialized(op.node) then [RenameEvent(Raw(Changes(ops)), op)] else []
  }

  lemma {:induction false} LogStep(cs: seq<Change>, op: Op)
    requires cs != [] && cs[|cs| - 1] == ChangeOf(op)
    ensures Log(cs) == Log(cs[..|cs| - 1]) +
                       if op.RenameOp? && IsInitialized(op.node) then [RenameEvent(Raw(cs), op)] else []
  {
  }

  lemma {:induction false} LogIsRenames(ops: seq<Op>)
    ensures Log(Changes(ops)) == RenameEvents(ops)
  {
    if ops != [] {
      LogIsRenames(ops[..|ops| - 1]);
      LastChange(ops);
      LogStep(Changes(ops), ops[|ops| - 1]);
    }
  }

  /** The renames of every admissible branch are tracked. */
  lemma BranchRenamesTracked(ops: seq<Op>, x: BlockPointer)
    requires AdmissibleRun(Changes(ops)) && Run(Changes(ops)).Ok?
    ensures Summarizes(Run(Changes(ops)).value.renamed, RenameEvents(ops), x)
  {
    var cs := Changes(ops);
    forall c | c in cs
      ensures Shaped(c)
    {
      var i :| 0 <= i < |cs| && cs[i] == c;
      OperationsAreShaped(ops[i]);
    }
    RenamesTracked(cs, x);
    LogIsRenames(ops);
  }

  /** Operation i references block x. */
  predicate MakesAt(ops: seq<Op>, i: nat, x: BlockPointer) {
    i < |ops| && x in ops[i].common.refs
  }

  /** Operation i drops a block whose first pointer is then x. */
  ghost predicate DropsAt(ops: seq<Op>, i: nat, x: BlockPointer) {
    i < |ops| && exists q :: q in ops[i].common.unrefs && Found(Raw(Changes(ops[..i + 1])), q) == x
  }

  lemma MarksOf(op: Op)
    ensures ChangeOf(op).refs == op.common.refs && ChangeOf(op).unrefs == op.common.unrefs
  {
  }

  lemma MarkedAt(ops: seq<Op>, i: nat, x: BlockPointer)
    ensures CreatesAt(Changes(ops), i, x) <==> MakesAt(ops, i, x)
    ensures DeletesAt(Changes(ops), i, x) <==> DropsAt(ops, i, x)
  {
    if i < |ops| {
      MarksOf(ops[i]);
      assert Changes(ops)[..i + 1] == Changes(ops[..i + 1]);
    }
  }

  /** The nodes that a branch creates and deletes, read off its operations. */
  lemma BranchMarks(ops: seq<Op>, x: BlockPointer)
    requires AdmissibleRun(Changes(ops)) && Run(Changes(ops)).Ok?
    ensures x in Run(Changes(ops)).value.created <==> exists i :: MakesAt(ops, i, x)
    ensures x in Run(Changes(ops)).value.deleted <==> exists i :: DropsAt(ops, i, x)
  {
    MarksExact(Changes(ops), x);
    forall i: nat
      ensures CreatesAt(Changes(ops), i, x) <==> MakesAt(ops, i, x)
      ensures DeletesAt(Changes(ops), i, x) <==> DropsAt(ops, i, x)
    {
      MarkedAt(ops, i, x);
    }
    SameEver(Changes(ops), ops, x);
  }

  lemma SameEver(cs: seq<Change>, ops: seq<Op>, x: BlockPointer)
    requires forall i :: (CreatesAt(cs, i, x) <==> MakesAt(ops, i, x)) && (DeletesAt(cs, i, x) <==> DropsAt(ops, i, x))
    ensures EverCreates(cs, x) <==> exists i :: MakesAt(ops, i, x)
    ensures EverDeletes(cs, x) <==> exists i :: DropsAt(ops, i, x)
  {
  }
}

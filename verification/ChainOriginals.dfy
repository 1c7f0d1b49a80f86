/** Chains whose first pointer is changed while the branch is resolved: originals then has to be followed to its end
    (libkbfs/cr_chains.go). */
module ChainOriginals {
  import opened Ops
  import opened ChainIndex

  /** Changing the first pointer of a node to one that is not a first pointer keeps the index one-to-one, unless it
      is the current pointer of another node. */
  lemma RehomedKeeps(v: View, x: BlockPointer, y: BlockPointer)
    requires Consistent(v) && x in v.tip && y !in v.tip && (y in v.curr ==> v.curr[y] == x)
    ensures Consistent(Rehomed(v, x, y))
  {
    var w := Rehomed(v, x, y);
    assert v.tip[x] in v.curr && v.home[x] == x;
    assert Inverse(w.tip, w.curr);
    assert Homes(w.home, w.tip, w.curr);
  }

  lemma RehomedClashes(v: View, x: BlockPointer, y: BlockPointer)
    requires Consistent(v) && x in v.tip && y !in v.tip && y in v.curr && v.curr[y] != x
    ensures !Consistent(Rehomed(v, x, y))
  {
    var w := Rehomed(v, x, y);
    var o := v.curr[y];
    assert o in v.tip && v.tip[o] in v.curr && v.tip[x] in v.curr;
    assert v.tip[o] == y;
    assert o in w.tip && w.tip[o] == y;
    assert w.home[y] == y && y in w.curr;
  }

  /** So it does exactly then. */
  lemma RehomedConsistent(v: View, x: BlockPointer, y: BlockPointer)
    requires Consistent(v) && x in v.tip && y !in v.tip
    ensures Consistent(Rehomed(v, x, y)) <==> !(y in v.curr && v.curr[y] != x)
  {
    if y in v.curr && v.curr[y] != x {
      RehomedClashes(v, x, y);
    } else {
      RehomedKeeps(v, x, y);
    }
  }

  /** Nothing is known under y: it is no node's, and not marked. */
  predicate Unmarked(v: View, y: BlockPointer) {
    y !in v.home && y !in v.created && y !in v.deleted && y !in v.renamed && y !in v.ops
  }

  /** When the first pointer of a node is changed to one under which nothing is known, then looking up any pointer finds
      for its node what it found before: whether it was created, deleted or renamed, and how, its operations, and its
      current pointer, if that was not the old first one itself. */
  lemma RehomedMarks(v: View, x: BlockPointer, y: BlockPointer, p: BlockPointer)
    requires Consistent(v) && x in v.tip && Unmarked(v, y) && p in v.home
    ensures var w := Rehomed(v, x, y);
            p in w.home &&
            var o, o' := v.home[p], w.home[p];
            && (o' == if o == x then y else o)
            && (o' in w.created <==> o in v.created) && (o' in w.deleted <==> o in v.deleted)
            && (o' in w.renamed <==> o in v.renamed) && (o in v.renamed ==> w.renamed[o'] == v.renamed[o])
            && (o' in w.ops <==> o in v.ops) && (o in v.ops ==> w.ops[o'] == v.ops[o])
            && o in v.tip && o' in w.tip && w.tip[o'] == (if v.tip[o] == x then y else v.tip[o])
            && w.home[y] == y && y in w.home
            && x !in w.tip && x !in w.created && x !in w.deleted && x !in w.renamed && x !in w.ops
  {
    assert v.home[x] == x && v.tip[x] in v.curr;
    var o := v.home[p];
    assert o in v.tip;
    assert v.curr[v.tip[o]] == o;
  }

  // ---------- originals is followed to its end ----------

  ghost function RankRehomed(home: Pointers, rank: map<BlockPointer, nat>, x: BlockPointer, y: BlockPointer)
    : map<BlockPointer, nat>
    requires forall p :: p in home ==> p in rank
  {
    (map p | p in home :: if home[p] == x then rank[p] + 1 else rank[p])[y := 0]
  }

  lemma LeadsRehomed(originals: Pointers, home: Pointers, rank: map<BlockPointer, nat>, x: BlockPointer,
                     y: BlockPointer)
    requires Leads(originals, home, rank) && x in home && home[x] == x && y !in home
    ensures Leads(originals[x := y], Revalued(home, x, y)[y := y], RankRehomed(home, rank, x, y))
  {
  }

  datatype Step = Update(u: BlockUpdate) | Rehome(x: BlockPointer, y: BlockPointer)

  predicate StepOk(v: View, s: Step) {
    match s
    case Update(u) => Admissible(v, u)
    case Rehome(x, y) => x in v.tip && y !in v.known
  }

  function After(v: View, s: Step): View
    requires StepOk(v, s)
  {
    match s
    case Update(u) => Moved(v, u)
    case Rehome(x, y) => Rehomed(v, x, y)
  }

  ghost predicate Led(v: View) {
    Consistent(v) && exists rank :: Leads(v.originals, v.home, rank)
  }

  /** Every mix of updates and changed first pointers keeps the index one-to-one and originals free of cycles. */
  lemma StepKeepsLed(v: View, s: Step)
    requires Led(v) && StepOk(v, s)
    ensures Led(After(v, s))
  {
    var rank :| Leads(v.originals, v.home, rank);
    match s
    case Update(u) =>
      MovedConsistent(v, u);
      AdmissiblePlaced(v, u);
      FirstOfPlaced(v, u);
      LeadsMoved(v, u, v.originals, rank);
    case Rehome(x, y) =>
      RehomedConsistent(v, x, y);
      assert v.tip[x] in v.curr && v.home[x] == x;
      LeadsRehomed(v.originals, v.home, rank, x, y);
  }

  lemma FirstOfPlaced(v: View, u: BlockUpdate)
    requires Consistent(v) && Admissible(v, u) && forall p :: p in v.originals ==> p in v.home
    ensures var o := Root(v, u.unref); if u.unref in v.home then o in v.home && v.home[o] == o else o !in v.originals
  {
  }

  predicate StepsOk(v: View, ss: seq<Step>)
    decreases ss
  {
    ss == [] || (StepOk(v, ss[0]) && StepsOk(After(v, ss[0]), ss[1..]))
  }

  function AfterAll(v: View, ss: seq<Step>): View
    requires StepsOk(v, ss)
    decreases ss
  {
    if ss == [] then v else AfterAll(After(v, ss[0]), ss[1..])
  }

  lemma {:induction false} StepsKeepLed(v: View, ss: seq<Step>)
    requires Led(v) && StepsOk(v, ss)
    ensures Led(AfterAll(v, ss))
    decreases ss
  {
    if ss != [] {
      StepKeepsLed(v, ss[0]);
      StepsKeepLed(After(v, ss[0]), ss[1..]);
    }
  }

  ghost predicate EndsAt(originals: Pointers, p: BlockPointer, o: BlockPointer) {
    o !in originals && exists n: nat :: Follow(originals, p, n) == o
  }

  lemma LedEnds(v: View, p: BlockPointer)
    requires Led(v) && p in v.home
    ensures EndsAt(v.originals, p, v.home[p])
  {
    var rank :| Leads(v.originals, v.home, rank);
    FollowEndsHome(v.originals, v.home, rank, p, rank[p]);
  }

  lemma NothingIsLed()
    ensures Led(NO_NODES)
  {
    var none: Pointers, rank: map<BlockPointer, nat> := map[], map[];
    assert Leads(none, none, rank);
    assert Inverse(none, none) && Homes(none, none, none);
  }

  /** After any such run, following originals from any pointer of a node ends at the node's present first pointer. */
  lemma OriginalsEndAtFirst(ss: seq<Step>, p: BlockPointer)
    requires StepsOk(NO_NODES, ss) && p in AfterAll(NO_NODES, ss).home
    ensures var v := AfterAll(NO_NODES, ss); EndsAt(v.originals, p, v.home[p])
  {
    NothingIsLed();
    StepsKeepLed(NO_NODES, ss);
    LedEnds(AfterAll(NO_NODES, ss), p);
  }

  /** The guard is not enough: made the first pointer of its own node, a later pointer of a chain closes a cycle, and
      following originals never ends. */
  lemma {:induction false} StaleFirstPointerCycles(originals: Pointers, home: Pointers, rank: map<BlockPointer, nat>,
                                                   x: BlockPointer, y: BlockPointer, p: BlockPointer, n: nat)
    requires Leads(originals, home, rank) && x in home && home[x] == x
    requires y in originals && home[y] == x && p in home && home[p] == x
    ensures Follow(originals[x := y], p, n) in originals[x := y]
    decreases n
  {
    if n > 0 {
      StaleFirstPointerCycles(originals, home, rank, x, y, originals[x := y][p], n - 1);
    }
  }

  // ---------- Any new first pointer the code accepts ----------

  lemma {:induction false} FollowElsewhere(originals: Pointers, home: Pointers, rank: map<BlockPointer, nat>,
                                           x: BlockPointer, y: BlockPointer, p: BlockPointer, n: nat)
    requires Leads(originals, home, rank) && x in home && home[x] == x && p in home && home[p] != x
    ensures Follow(originals[x := y], p, n) == Follow(originals, p, n)
    decreases n
  {
    if n > 0 && p in originals {
      FollowElsewhere(originals, home, rank, x, y, originals[p], n - 1);
    }
  }

  lemma EndsAtStep(originals: Pointers, p: BlockPointer, o: BlockPointer)
    requires p in originals && EndsAt(originals, originals[p], o)
    ensures EndsAt(originals, p, o)
  {
    var n: nat :| Follow(originals, originals[p], n) == o;
    assert Follow(originals, p, n + 1) == o;
  }

  /** Every pointer of the node goes through its old first pointer. */
  lemma {:induction false} EndsThroughFirst(originals: Pointers, home: Pointers, rank: map<BlockPointer, nat>,
                                            x: BlockPointer, y: BlockPointer, p: BlockPointer, o: BlockPointer)
    requires Leads(originals, home, rank) && p in home && home[p] == x
    requires EndsAt(originals[x := y], y, o)
    ensures EndsAt(originals[x := y], p, o)
    decreases rank[p]
  {
    if p != x {
      EndsThroughFirst(originals, home, rank, x, y, originals[p], o);
    }
    EndsAtStep(originals[x := y], p, o);
  }

  /** Where following originals ends after the first pointer x of a node is changed to any y that is not a first
      pointer.  Pointers of other nodes still end at theirs.  Those of the node end at y if y is new to the branch, at
      the first pointer of y's node if y belongs to another, and nowhere if y belongs to the node itself. */
  lemma ChangedOriginalEnds(v: View, x: BlockPointer, y: BlockPointer, p: BlockPointer)
    requires Led(v) && x in v.tip && y !in v.tip && p in v.home
    ensures var o' := v.originals[x := y];
            if v.home[p] != x then EndsAt(o', p, v.home[p])
            else if y !in v.home then EndsAt(o', p, y)
            else if v.home[y] != x then EndsAt(o', p, v.home[y])
            else forall n: nat :: Follow(o', p, n) in o'
  {
    var rank :| Leads(v.originals, v.home, rank);
    assert v.tip[x] in v.curr && v.home[x] == x;
    var o' := v.originals[x := y];
    if v.home[p] != x {
      EndsElsewhere(v, rank, x, y, p);
    } else if y !in v.home {
      assert Follow(o', y, 0) == y;
      EndsThroughFirst(v.originals, v.home, rank, x, y, p, y);
    } else if v.home[y] != x {
      EndsElsewhere(v, rank, x, y, y);
      EndsThroughFirst(v.originals, v.home, rank, x, y, p, v.home[y]);
    } else {
      assert y in v.originals by {
        assert v.home[y] in v.tip;
      }
      forall n: nat
        ensures Follow(o', p, n) in o'
      {
        StaleFirstPointerCycles(v.originals, v.home, rank, x, y, p, n);
      }
    }
  }

  lemma EndsElsewhere(v: View, rank: map<BlockPointer, nat>, x: BlockPointer, y: BlockPointer, p: BlockPointer)
    requires Leads(v.originals, v.home, rank) && x in v.home && v.home[x] == x && p in v.home && v.home[p] != x
    ensures EndsAt(v.originals[x := y], p, v.home[p])
  {
    FollowElsewhere(v.originals, v.home, rank, x, y, p, rank[p]);
    FollowEndsHome(v.originals, v.home, rank, p, rank[p]);
  }

  ghost predicate Ends(originals: Pointers, p: BlockPointer) {
    exists o :: EndsAt(originals, p, o)
  }

  /** So following originals ends from every pointer exactly if y was not a later pointer of the node itself, and ends
      at y from the node's pointers exactly if y had never been in the branch. */
  lemma ChangedOriginalExact(v: View, x: BlockPointer, y: BlockPointer)
    requires Led(v) && x in v.tip && y !in v.tip
    ensures var o' := v.originals[x := y];
            && ((forall p :: p in v.home ==> Ends(o', p)) <==> !(y in v.originals && v.home[y] == x))
            && (forall p :: p in v.home && v.home[p] == x ==> (EndsAt(o', p, y) <==> y !in v.originals))
  {
    var o' := v.originals[x := y];
    YIsLater(v, x, y);
    forall p | p in v.home
      ensures Ends(o', p) <==> !(v.home[p] == x && y in v.originals && v.home[y] == x)
      ensures v.home[p] == x ==> (EndsAt(o', p, y) <==> y !in v.originals)
    {
      ChangedOriginalEnds(v, x, y, p);
    }
    assert x in v.home && v.home[x] == x;
  }

  lemma YIsLater(v: View, x: BlockPointer, y: BlockPointer)
    requires Led(v) && x in v.tip && y !in v.tip
    ensures (y in v.originals <==> y in v.home) && x in v.home && v.home[x] == x
  {
    var rank :| Leads(v.originals, v.home, rank);
    assert v.tip[x] in v.curr;
    assert y in v.home ==> v.home[y] in v.tip;
  }

  lemma OneUpdate()
    ensures var v := MovedAll(NO_NODES, [BlockUpdate(1, 2)]);
            && Led(v) && 1 in v.tip && 2 !in v.tip
            && 1 in v.home && v.home[1] == 1 && 2 in v.home && v.home[2] == 1
  {
    var us := [BlockUpdate(1, 2)];
    assert |us[..0]| == 0;
    assert MovedAll(NO_NODES, us) == Moved(NO_NODES, us[0]);
    NothingIsLed();
    StepKeepsLed(NO_NODES, Update(us[0]));
  }

  /** The update of 1 to 2 makes 2 a later pointer of the node first seen as 1; changing 1 to 2 is then accepted, and
      following originals does not end. */
  lemma LaterPointerAsFirst()
    ensures var v := MovedAll(NO_NODES, [BlockUpdate(1, 2)]);
            && Led(v) && 1 in v.tip && 2 !in v.tip
            && !Ends(Rehomed(v, 1, 2).originals, 1) && !Ends(Rehomed(v, 1, 2).originals, 2)
  {
    OneUpdate();
    var v := MovedAll(NO_NODES, [BlockUpdate(1, 2)]);
    ChangedOriginalEnds(v, 1, 2, 1);
    ChangedOriginalEnds(v, 1, 2, 2);
  }
}

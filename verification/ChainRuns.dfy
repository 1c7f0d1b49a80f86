/** Whole runs of operations through the chain index: what the index holds at the end, read off the operations
    themselves (libkbfs/cr_chains.go). */
module ChainRuns {
  import opened Ops
  import opened Outcomes
  import opened ChainCollapse
  import opened ChainIndex

  // ---------- Runs ----------

  /** The nodes after a run of changes, or an error if one of them does not land. */
  function Run(cs: seq<Change>): Result<View> {
    if cs == [] then Ok(NO_NODES)
    else
      var before := Run(cs[..|cs| - 1]);
      if before.Err? then Err else Performed(before.value, cs[|cs| - 1])
  }

  predicate AdmissibleRun(cs: seq<Change>) {
    cs == [] ||
    var p := cs[..|cs| - 1];
    AdmissibleRun(p) && (Run(p).Ok? ==> AdmissibleChange(Run(p).value, cs[|cs| - 1]))
  }

  ghost predicate SameIndex(v: View, w: View) {
    v.home == w.home && v.tip == w.tip && v.curr == w.curr && v.originals == w.originals
  }

  lemma PerformedKeepsIndex(v: View, c: Change)
    requires Performed(v, c).Ok?
    ensures var w := Performed(v, c).value;
            SameIndex(w, MovedAll(v, Updates(v, c))) && MovedAll(v, Updates(v, c)).known <= w.known
  {
    var w := Prepared(v, c);
    LoggedAllKeepsIndex(w, Entries(c, Root(w, NodeOf(c))));
  }

  lemma {:induction false} LoggedAllKeepsNodes(v: View, es: seq<Landing>)
    requires Consistent(v) && AllCurrent(v.curr, es)
    ensures Consistent(LoggedAll(v, es))
  {
    if es != [] {
      var p := es[..|es| - 1];
      LoggedAllKeepsNodes(v, p);
      LoggedAllKeepsIndex(v, p);
      assert v.curr[es[|p|].at] in v.tip;
    }
  }

  lemma PerformedConsistent(v: View, c: Change)
    requires Consistent(v) && AdmissibleChange(v, c) && Performed(v, c).Ok?
    ensures Consistent(Performed(v, c).value)
  {
    RunConsistent(v, Updates(v, c));
    var w := Prepared(v, c);
    LoggedAllKeepsNodes(w, Entries(c, Root(w, NodeOf(c))));
  }

  /** Every operation of an admissible run leaves the nodes consistent, so the next one can be followed. */
  lemma {:induction false} RunKeepsNodes(cs: seq<Change>)
    requires AdmissibleRun(cs) && Run(cs).Ok?
    ensures Consistent(Run(cs).value)
  {
    if cs != [] {
      var p := cs[..|cs| - 1];
      RunKeepsNodes(p);
      PerformedConsistent(Run(p).value, cs[|p|]);
    }
  }

  // ---------- The run against its raw updates ----------

  /** All pointer updates of a run, in order. */
  function Raw(cs: seq<Change>): seq<BlockUpdate> {
    if cs == [] then [] else Raw(cs[..|cs| - 1]) + cs[|cs| - 1].updates
  }

  /** The same, with the targets of setAttr changes put in as updates to themselves where pads says so. */
  ghost function Padded(cs: seq<Change>, pads: seq<bool>): seq<BlockUpdate>
    requires |cs| == |pads|
  {
    if cs == [] then []
    else
      var k := |cs| - 1;
      Padded(cs[..k], pads[..k]) + WithSelf(cs[k], pads[k])
  }

  ghost function WithSelf(c: Change, pad: bool): seq<BlockUpdate> {
    if pad && c.target.Some? then c.updates + [BlockUpdate(c.target.value, c.target.value)] else c.updates
  }

  ghost function Pads(cs: seq<Change>): (pads: seq<bool>)
    ensures |pads| == |cs|
  {
    if cs == [] then []
    else
      var p := cs[..|cs| - 1];
      Pads(p) + [Run(p).Ok? && Updates(Run(p).value, cs[|p|]) != cs[|p|].updates]
  }

  lemma {:induction false} MovedAllAppend(v: View, a: seq<BlockUpdate>, b: seq<BlockUpdate>)
    ensures MovedAll(v, a + b) == MovedAll(MovedAll(v, a), b)
    ensures AdmissibleAll(v, a + b) <==> AdmissibleAll(v, a) && AdmissibleAll(MovedAll(v, a), b)
  {
    if b == [] {
      assert a + b == a;
    } else {
      var b' := b[..|b| - 1];
      assert (a + b)[..|a + b| - 1] == a + b';
      MovedAllAppend(v, a, b');
    }
  }

  /** What updates do to the index does not depend on the rest, and knowing fewer pointers admits more updates. */
  lemma {:induction false} MovedAllLocal(v: View, w: View, us: seq<BlockUpdate>)
    requires SameIndex(v, w) && v.known <= w.known && AdmissibleAll(w, us)
    ensures SameIndex(MovedAll(v, us), MovedAll(w, us)) && MovedAll(v, us).known <= MovedAll(w, us).known
    ensures AdmissibleAll(v, us)
  {
    if us != [] {
      MovedAllLocal(v, w, us[..|us| - 1]);
    }
  }

  lemma PaddedStep(v: View, c: Change)
    ensures Updates(v, c) == WithSelf(c, Updates(v, c) != c.updates)
  {
  }

  /** us brings the index to where it is in v, from nothing. */
  ghost predicate Reaches(us: seq<BlockUpdate>, v: View) {
    AdmissibleAll(NO_NODES, us) && var w := MovedAll(NO_NODES, us); SameIndex(w, v) && w.known <= v.known
  }

  lemma PerformedReaches(us: seq<BlockUpdate>, v: View, c: Change)
    requires Reaches(us, v) && AdmissibleChange(v, c) && Performed(v, c).Ok?
    ensures Reaches(us + Updates(v, c), Performed(v, c).value)
  {
    MovedAllLocal(MovedAll(NO_NODES, us), v, Updates(v, c));
    MovedAllAppend(NO_NODES, us, Updates(v, c));
    PerformedKeepsIndex(v, c);
  }

  lemma {:induction false} RunIsPadded(cs: seq<Change>)
    requires AdmissibleRun(cs) && Run(cs).Ok?
    ensures Reaches(Padded(cs, Pads(cs)), Run(cs).value)
  {
    if cs != [] {
      var p := cs[..|cs| - 1];
      RunIsPadded(p);
      PerformedReaches(Padded(p, Pads(p)), Run(p).value, cs[|p|]);
      PaddedStep(Run(p).value, cs[|p|]);
      assert Pads(cs)[..|p|] == Pads(p);
    }
  }

  lemma {:induction false} OriginAppend(a: seq<BlockUpdate>, b: seq<BlockUpdate>, p: BlockPointer)
    ensures Origin(a + b, p) == Origin(a, Origin(b, p))
  {
    if b == [] {
      assert a + b == a;
    } else {
      assert (a + b)[..|a + b| - 1] == a + b[..|b| - 1];
      OriginAppend(a, b[..|b| - 1], if b[|b| - 1].ref == p then b[|b| - 1].unref else p);
    }
  }

  lemma {:induction false} LatestAppend(a: seq<BlockUpdate>, b: seq<BlockUpdate>, p: BlockPointer)
    ensures Latest(a + b, p) == Latest(b, Latest(a, p))
  {
    if b == [] {
      assert a + b == a;
    } else {
      assert (a + b)[..|a + b| - 1] == a + b[..|b| - 1];
      LatestAppend(a, b[..|b| - 1], p);
    }
  }

  lemma SelfIsNoMove(c: Change, pad: bool, p: BlockPointer)
    ensures Origin(WithSelf(c, pad), p) == Origin(c.updates, p)
    ensures Latest(WithSelf(c, pad), p) == Latest(c.updates, p)
  {
  }

  lemma SameOrigin(a: seq<BlockUpdate>, a': seq<BlockUpdate>, b: seq<BlockUpdate>, b': seq<BlockUpdate>,
                   p: BlockPointer)
    requires Origin(b', p) == Origin(b, p)
    requires Origin(a', Origin(b, p)) == Origin(a, Origin(b, p))
    ensures Origin(a' + b', p) == Origin(a + b, p)
  {
    OriginAppend(a, b, p);
    OriginAppend(a', b', p);
  }

  lemma SameLatest(a: seq<BlockUpdate>, a': seq<BlockUpdate>, b: seq<BlockUpdate>, b': seq<BlockUpdate>,
                   p: BlockPointer)
    requires Latest(a', p) == Latest(a, p)
    requires Latest(b', Latest(a, p)) == Latest(b, Latest(a, p))
    ensures Latest(a' + b', p) == Latest(a + b, p)
  {
    LatestAppend(a, b, p);
    LatestAppend(a', b', p);
  }

  lemma {:induction false} PaddedTraces(cs: seq<Change>, pads: seq<bool>, p: BlockPointer)
    requires |cs| == |pads|
    ensures Origin(Padded(cs, pads), p) == Origin(Raw(cs), p)
    ensures Latest(Padded(cs, pads), p) == Latest(Raw(cs), p)
  {
    if cs != [] {
      var k := |cs| - 1;
      var q, r, c := cs[..k], pads[..k], cs[k];
      PaddedTraces(q, r, Origin(c.updates, p));
      PaddedTraces(q, r, p);
      SelfIsNoMove(c, pads[k], p);
      SelfIsNoMove(c, pads[k], Latest(Raw(q), p));
      SameOrigin(Raw(q), Padded(q, r), c.updates, WithSelf(c, pads[k]), p);
      SameLatest(Raw(q), Padded(q, r), c.updates, WithSelf(c, pads[k]), p);
    }
  }

  /** However a run of operations moves a node's pointer, the index takes every pointer the node has had back to its
      first one, and the first one to the current one: both are the ends of the node's trail through the updates. */
  lemma IndexFollowsTrails(cs: seq<Change>, p: BlockPointer)
    requires AdmissibleRun(cs) && Run(cs).Ok?
    ensures var v := Run(cs).value;
            && (p in v.home ==> v.home[p] == Origin(Raw(cs), p))
            && (p in v.tip ==> v.tip[p] == Latest(Raw(cs), p))
            && Root(v, p) == if p in v.home && p !in v.curr then p else Origin(Raw(cs), p)
  {
    RunIsPadded(cs);
    RunKeepsNodes(cs);
    var us := Padded(cs, Pads(cs));
    HomeIsOrigin(us, p);
    TipIsLatest(us, p);
    UnseenStaysPut(us, p);
    PaddedTraces(cs, Pads(cs), p);
  }

  /** Looking up a pointer gives the start of its trail if no update has replaced it, and else the pointer itself. */
  function Found(us: seq<BlockUpdate>, p: BlockPointer): BlockPointer {
    if Latest(us, p) == p then Origin(us, p) else p
  }

  lemma RootIsFound(cs: seq<Change>, p: BlockPointer)
    requires AdmissibleRun(cs) && Run(cs).Ok?
    ensures Root(Run(cs).value, p) == Found(Raw(cs), p)
  {
    RunIsPadded(cs);
    IndexFollowsTrails(cs, p);
    var us := Padded(cs, Pads(cs));
    CurrentIsLatest(us, p);
    UnseenStaysPut(us, p);
    PaddedTraces(cs, Pads(cs), p);
  }

  // ---------- Created and deleted nodes ----------

  /** Change i drops the block that has x as its first pointer at that time. */
  ghost predicate DeletesAt(cs: seq<Change>, i: nat, x: BlockPointer) {
    i < |cs| && exists q :: q in cs[i].unrefs && Found(Raw(cs[..i + 1]), q) == x
  }

  predicate CreatesAt(cs: seq<Change>, i: nat, x: BlockPointer) {
    i < |cs| && x in cs[i].refs
  }

  lemma PerformedMarks(v: View, c: Change)
    requires Performed(v, c).Ok?
    ensures var w, p := MovedAll(v, Updates(v, c)), Performed(v, c).value;
            && p.created == v.created + (set x | x in c.refs)
            && p.deleted == v.deleted + (set q | q in c.unrefs :: Root(w, q))
            && p.curr == w.curr
  {
    var w := Prepared(v, c);
    MovedAllKeepsMarks(v, Updates(v, c));
    LoggedAllKeepsIndex(w, Entries(c, Root(w, NodeOf(c))));
  }

  lemma MarksStep(cs: seq<Change>, x: BlockPointer)
    requires cs != [] && AdmissibleRun(cs) && Run(cs).Ok?
    ensures var p, c := cs[..|cs| - 1], cs[|cs| - 1];
            && (x in Run(cs).value.created <==> x in Run(p).value.created || x in c.refs)
            && (x in Run(cs).value.deleted <==> x in Run(p).value.deleted || DeletesAt(cs, |cs| - 1, x))
  {
    var p, c := cs[..|cs| - 1], cs[|cs| - 1];
    var v := Run(p).value;
    PerformedMarks(v, c);
    assert cs[..|cs|] == cs;
    forall q
      ensures Root(MovedAll(v, Updates(v, c)), q) == Found(Raw(cs), q)
    {
      RootIsFound(cs, q);
    }
  }

  ghost predicate EverCreates(cs: seq<Change>, x: BlockPointer) {
    exists i :: CreatesAt(cs, i, x)
  }

  ghost predicate EverDeletes(cs: seq<Change>, x: BlockPointer) {
    exists i :: DeletesAt(cs, i, x)
  }

  lemma EverMore(cs: seq<Change>, x: BlockPointer)
    requires cs != []
    ensures var k := |cs| - 1;
            && (EverCreates(cs, x) <==> EverCreates(cs[..k], x) || x in cs[k].refs)
            && (EverDeletes(cs, x) <==> EverDeletes(cs[..k], x) || DeletesAt(cs, k, x))
  {
    var k := |cs| - 1;
    var p := cs[..k];
    forall i: nat | i < k
      ensures (CreatesAt(cs, i, x) <==> CreatesAt(p, i, x)) && (DeletesAt(cs, i, x) <==> DeletesAt(p, i, x))
    {
      assert p[..i + 1] == cs[..i + 1];
    }
    assert CreatesAt(cs, k, x) <==> x in cs[k].refs;
  }

  lemma NoneEver(cs: seq<Change>, x: BlockPointer)
    requires cs == []
    ensures !EverCreates(cs, x) && !EverDeletes(cs, x) && Run(cs) == Ok(NO_NODES)
  {
  }

  /** After any run, the nodes marked as created are exactly those under pointers that some change references, and the
      nodes marked as deleted exactly those that some change drops, each under the first pointer it had. */
  lemma {:induction false} MarksExact(cs: seq<Change>, x: BlockPointer)
    requires AdmissibleRun(cs) && Run(cs).Ok?
    ensures x in Run(cs).value.created <==> EverCreates(cs, x)
    ensures x in Run(cs).value.deleted <==> EverDeletes(cs, x)
  {
    if cs == [] {
      NoneEver(cs, x);
    } else {
      MarksExact(cs[..|cs| - 1], x);
      MarksStep(cs, x);
      EverMore(cs, x);
    }
  }

  // ---------- originals ----------

  ghost predicate RecordsFirst(v: View, p: BlockPointer) {
    && (p in v.originals <==> p in v.home && v.home[p] != p)
    && (p in v.originals ==> v.originals[p] == v.home[p])
  }

  lemma RecordsFirstStep(v: View, u: BlockUpdate, p: BlockPointer)
    requires RecordsFirst(v, p) && Placed(v, u)
    requires Root(v, u.unref) == u.unref || Root(v, u.unref) in v.home
    ensures RecordsFirst(Moved(v, u), p)
  {
  }

  lemma {:induction false} UpdatesRecordOrigins(us: seq<BlockUpdate>, p: BlockPointer)
    requires AdmissibleAll(NO_NODES, us)
    ensures RecordsFirst(MovedAll(NO_NODES, us), p)
  {
    if us != [] {
      var before, u := us[..|us| - 1], us[|us| - 1];
      var v := MovedAll(NO_NODES, before);
      UpdatesRecordOrigins(before, p);
      RunConsistent(NO_NODES, before);
      AdmissiblePlaced(v, u);
      assert u.unref in v.curr ==> v.home[v.curr[u.unref]] == v.curr[u.unref];
      RecordsFirstStep(v, u, p);
    }
  }

  /** originals has exactly the pointers that replaced an earlier one, and maps each to the first of its node. */
  lemma OriginalsAreFirst(cs: seq<Change>, p: BlockPointer)
    requires AdmissibleRun(cs) && Run(cs).Ok?
    ensures var v := Run(cs).value;
            && (p in v.originals <==> p in v.home && Origin(Raw(cs), p) != p)
            && (p in v.originals ==> v.originals[p] == Origin(Raw(cs), p))
  {
    RunIsPadded(cs);
    UpdatesRecordOrigins(Padded(cs, Pads(cs)), p);
    IndexFollowsTrails(cs, p);
  }

  // ---------- Renames ----------

  /** A rename with the node and its parents given by their first pointers, traced through the updates so far. */
  datatype Event = Event(node: BlockPointer, from: BlockPointer, oldName: string, to: BlockPointer, newName: string)

  function EventOf(raw: seq<BlockUpdate>, m: Move): Event {
    Event(Origin(raw, m.node), Origin(raw, m.from), m.oldName, Origin(raw, m.to), m.newName)
  }

  function Log(cs: seq<Change>): seq<Event> {
    if cs == [] then []
    else
      var c := cs[|cs| - 1];
      Log(cs[..|cs| - 1]) + if c.move.Some? then [EventOf(Raw(cs), c.move.value)] else []
  }

  ghost predicate IsFirst(log: seq<Event>, x: BlockPointer, i: int) {
    0 <= i < |log| && log[i].node == x && forall k :: 0 <= k < i ==> log[k].node != x
  }

  ghost predicate IsLast(log: seq<Event>, x: BlockPointer, j: int) {
    0 <= j < |log| && log[j].node == x && forall k :: j < k < |log| ==> log[k].node != x
  }

  /** info is the old place of the first rename of x in the log and the new place of the last. */
  ghost predicate Spans(log: seq<Event>, x: BlockPointer, info: RenameInfo) {
    exists i, j :: IsFirst(log, x, i) && IsLast(log, x, j) &&
                   info == RenameInfo(log[i].from, log[i].oldName, log[j].to, log[j].newName)
  }

  ghost predicate Mentions(log: seq<Event>, x: BlockPointer) {
    exists i :: 0 <= i < |log| && log[i].node == x
  }

  /** A rename touches both of its directories, as every rename operation does. */
  predicate Shaped(c: Change) {
    c.move.Some? ==>
      && c.lands != [] && c.lands[0].at == c.move.value.from
      && c.made.Some? && c.made.value.at == c.move.value.to
  }

  lemma OperationsAreShaped(op: Op)
    ensures Shaped(ChangeOf(op))
  {
  }

  /** The log with one more event: the summary of its node is extended, the others stay. */
  lemma SpansStep(log: seq<Event>, e: Event, x: BlockPointer, info: RenameInfo)
    requires Spans(log, x, info)
    ensures Spans(log + [e], x, if e.node == x then info.(originalNewParent := e.to, newName := e.newName) else info)
  {
    var i, j :| IsFirst(log, x, i) && IsLast(log, x, j) &&
                info == RenameInfo(log[i].from, log[i].oldName, log[j].to, log[j].newName);
    var log' := log + [e];
    assert IsFirst(log', x, i);
    assert IsLast(log', x, if e.node == x then |log| else j);
  }

  lemma SpansNew(log: seq<Event>, e: Event)
    requires !Mentions(log, e.node)
    ensures Spans(log + [e], e.node, RenameInfo(e.from, e.oldName, e.to, e.newName))
  {
    assert IsFirst(log + [e], e.node, |log|) && IsLast(log + [e], e.node, |log|);
  }

  ghost predicate Summarizes(renamed: map<BlockPointer, RenameInfo>, log: seq<Event>, x: BlockPointer) {
    (x in renamed <==> Mentions(log, x)) && (x in renamed ==> Spans(log, x, renamed[x]))
  }

  lemma SummarizesStep(renamed: map<BlockPointer, RenameInfo>, log: seq<Event>, e: Event, x: BlockPointer)
    requires Summarizes(renamed, log, x)
    ensures var info := if e.node in renamed then renamed[e.node].(originalNewParent := e.to, newName := e.newName)
                        else RenameInfo(e.from, e.oldName, e.to, e.newName);
            Summarizes(renamed[e.node := info], log + [e], x)
  {
    var log' := log + [e];
    if x == e.node {
      assert log'[|log|].node == x;
      if x in renamed {
        SpansStep(log, e, x, renamed[x]);
      } else {
        SpansNew(log, e);
      }
    } else {
      assert Mentions(log', x) <==> Mentions(log, x) by {
        assert forall i :: 0 <= i < |log| ==> log'[i] == log[i];
      }
      if x in renamed {
        SpansStep(log, e, x, renamed[x]);
      }
    }
  }

  lemma {:induction false} AllCurrentAt(curr: Pointers, es: seq<Landing>, i: nat)
    requires AllCurrent(curr, es) && i < |es|
    ensures es[i].at in curr
  {
    if i < |es| - 1 {
      AllCurrentAt(curr, es[..|es| - 1], i);
    }
  }

  /** The nodes a rename records are the first pointers of the renamed node and of its directories. */
  lemma RenamedRoots(cs: seq<Change>)
    requires cs != [] && AdmissibleRun(cs) && Run(cs).Ok? && Shaped(cs[|cs| - 1]) && cs[|cs| - 1].move.Some?
    ensures var w, m := Prepared(Run(cs[..|cs| - 1]).value, cs[|cs| - 1]), cs[|cs| - 1].move.value;
            EventOf(Raw(cs), m) == Event(Root(w, m.node), Root(w, m.from), m.oldName, Root(w, m.to), m.newName)
  {
    var before, c := Run(cs[..|cs| - 1]).value, cs[|cs| - 1];
    var w, m := Prepared(before, c), c.move.value;
    var es := Entries(c, Root(w, NodeOf(c)));
    AllCurrentAt(w.curr, es, 0);
    AllCurrentAt(w.curr, es, |es| - 1);
    PerformedKeepsIndex(before, c);
    IndexFollowsTrails(cs, m.node);
    IndexFollowsTrails(cs, m.from);
    IndexFollowsTrails(cs, m.to);
  }

  lemma RenamedLocal(v: View, w: View, move: Option<Move>)
    requires v.curr == w.curr && v.renamed == w.renamed
    ensures Renamed(v, move).renamed == Renamed(w, move).renamed
  {
  }

  lemma PerformedRenames(v: View, c: Change)
    requires Performed(v, c).Ok?
    ensures Performed(v, c).value.renamed == Renamed(Prepared(v, c), c.move).renamed
    ensures Prepared(v, c).renamed == v.renamed
  {
    var w := Prepared(v, c);
    var es := Entries(c, Root(w, NodeOf(c)));
    LoggedAllKeepsIndex(w, es);
    RenamedLocal(LoggedAll(w, es), w, c.move);
    MovedAllKeepsMarks(v, Updates(v, c));
  }

  /** However often a node is renamed, and its pointer or its parents' pointers replaced, on the way: under the node's
      first pointer the index has the parent and name it was first renamed from and those it was last renamed to. */
  lemma {:induction false} RenamesTracked(cs: seq<Change>, x: BlockPointer)
    requires AdmissibleRun(cs) && Run(cs).Ok? && forall c :: c in cs ==> Shaped(c)
    ensures Summarizes(Run(cs).value.renamed, Log(cs), x)
  {
    if cs != [] {
      var p, c := cs[..|cs| - 1], cs[|cs| - 1];
      RenamesTracked(p, x);
      PerformedRenames(Run(p).value, c);
      if c.move.Some? {
        RenamedRoots(cs);
        SummarizesStep(Run(p).value.renamed, Log(p), EventOf(Raw(cs), c.move.value), x);
      } else {
        assert Log(cs) == Log(p);
      }
    }
  }
}

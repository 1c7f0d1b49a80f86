/** The chains of a branch, indexed by first and by latest pointer (libkbfs/cr_chains.go). */
module ChainIndex {
  import opened Ops
  import opened Outcomes
  import opened ChainCollapse

  // ---------- Nodes: what the index stands for ----------

  /** The nodes touched by a branch.  home gives every pointer a node has had its first one, tip gives a first pointer
      the current one and curr the way back, originals is what the index
      records about home, ops the operations on the node.  known holds every pointer mentioned. */
  datatype View = View(home: Pointers, tip: Pointers,
                       curr: Pointers, originals: Pointers, ops: map<BlockPointer, seq<Op>>,
                       created: set<BlockPointer>, deleted: set<BlockPointer>,
                       renamed: map<BlockPointer, RenameInfo>, known: set<BlockPointer>)

  /** Where a node was before its first rename and where it is after its last, parents given by first pointers. */
  datatype RenameInfo = RenameInfo(originalOldParent: BlockPointer, oldName: string,
                                   originalNewParent: BlockPointer, newName: string)

  const NO_NODES := View(map[], map[], map[], map[], map[], {}, {}, map[], {})

  function Root(v: View, p: BlockPointer): BlockPointer {
    if p in v.curr then v.curr[p] else p
  }

  /** The node holding u.unref, a new one if there is none, now points to u.ref. */
  function Moved(v: View, u: BlockUpdate): View {
    var o := Root(v, u.unref);
    v.(home := v.home[u.unref := o][u.ref := o],
       tip := v.tip[o := u.ref],
       curr := (v.curr - {u.unref})[u.ref := o],
       originals := if o == u.ref then v.originals else v.originals[u.ref := o],
       known := v.known + {u.unref, u.ref})
  }

  function MovedAll(v: View, us: seq<BlockUpdate>): View {
    if us == [] then v else Moved(MovedAll(v, us[..|us| - 1]), us[|us| - 1])
  }

  /** An update a real history makes: it starts from a set pointer that is current or was never part of a node, and
      leads to itself or to a pointer nobody has mentioned. */
  predicate Admissible(v: View, u: BlockUpdate) {
    && (IsInitialized(u.unref) || u.ref == u.unref)
    && (u.unref in v.curr || u.unref !in v.home)
    && (u.ref == u.unref || u.ref !in v.known)
  }

  predicate AdmissibleAll(v: View, us: seq<BlockUpdate>) {
    us == [] || (AdmissibleAll(v, us[..|us| - 1]) && Admissible(MovedAll(v, us[..|us| - 1]), us[|us| - 1]))
  }

  type Pointers = map<BlockPointer, BlockPointer>

  /** tip and curr lead to each other's keys and back.  The triggers keep the two halves from feeding each other. */
  ghost predicate Inverse(tip: Pointers, curr: Pointers) {
    && (forall o {:trigger tip[o]} :: o in tip ==> tip[o] in curr && curr[tip[o]] == o)
    && (forall m {:trigger curr[m]} :: m in curr ==> curr[m] in tip)
    && (forall m, n {:trigger curr[m], curr[n]} :: m in curr && n in curr && curr[m] == curr[n] ==> m == n)
  }

  /** home is constant on a node, and first and current pointers are the node's own. */
  ghost predicate Homes(home: Pointers, tip: Pointers, curr: Pointers) {
    && (forall o {:trigger tip[o]} {:trigger home[o]} :: o in tip ==> o in home && home[o] == o)
    && (forall m {:trigger curr[m]} :: m in curr ==> m in home && home[m] == curr[m])
    && (forall p {:trigger home[p]} :: p in home ==> home[p] in tip)
  }

  /** Nodes do not share pointers, and every node's first and current pointer are its own. */
  ghost predicate Consistent(v: View) {
    && Inverse(v.tip, v.curr)
    && Homes(v.home, v.tip, v.curr)
    && (forall p :: p in v.home ==> p in v.known)
    && (forall o :: o in v.ops ==> o in v.tip)
  }

  lemma InverseMoved(tip: Pointers, curr: Pointers, o: BlockPointer, from: BlockPointer, to: BlockPointer)
    requires Inverse(tip, curr)
    requires if from in curr then curr[from] == o else o !in tip
    requires to == from || to !in curr
    ensures Inverse(tip[o := to], (curr - {from})[to := o])
  {
  }

  lemma HomesMoved(home: Pointers, tip: Pointers, curr: Pointers, o: BlockPointer, from: BlockPointer, to: BlockPointer)
    requires Homes(home, tip, curr)
    requires if from in home then home[from] == o else o == from
    requires to == from || to !in home
    ensures Homes(home[from := o][to := o], tip[o := to], (curr - {from})[to := o])
    ensures forall p :: p in home ==> home[from := o][to := o][p] == home[p]
  {
  }

  /** How the node of an admissible update sits in the index. */
  ghost predicate Placed(v: View, u: BlockUpdate) {
    var o := Root(v, u.unref);
    && (if u.unref in v.curr then o in v.tip && v.tip[o] == u.unref else o !in v.tip && o !in v.ops)
    && (if u.unref in v.home then v.home[u.unref] == o else o == u.unref)
    && (forall m :: m in v.curr && m != u.unref ==> v.curr[m] != o)
    && (u.ref == u.unref || (u.ref !in v.curr && u.ref !in v.home && IsInitialized(u.unref)))
  }

  lemma AdmissiblePlaced(v: View, u: BlockUpdate)
    requires Consistent(v) && Admissible(v, u)
    ensures Placed(v, u)
  {
  }

  lemma MovedConsistent(v: View, u: BlockUpdate)
    requires Consistent(v) && Admissible(v, u)
    ensures Consistent(Moved(v, u))
    ensures forall p :: p in v.home ==> p in Moved(v, u).home && Moved(v, u).home[p] == v.home[p]
  {
    AdmissiblePlaced(v, u);
    InverseMoved(v.tip, v.curr, Root(v, u.unref), u.unref, u.ref);
    HomesMoved(v.home, v.tip, v.curr, Root(v, u.unref), u.unref, u.ref);
    var w := Moved(v, u);
    assert Inverse(w.tip, w.curr);
    assert Homes(w.home, w.tip, w.curr);
  }

  // ---------- The nodes against the raw list of updates ----------

  /** Walk back through the updates from p: whenever p was the result of one, go on from what it replaced. */
  function Origin(us: seq<BlockUpdate>, p: BlockPointer): BlockPointer {
    if us == [] then p
    else
      var u := us[|us| - 1];
      Origin(us[..|us| - 1], if u.ref == p then u.unref else p)
  }

  /** Walk forward through the updates from p: whenever p is replaced, go on from its replacement. */
  function Latest(us: seq<BlockUpdate>, p: BlockPointer): BlockPointer {
    if us == [] then p
    else
      var q := Latest(us[..|us| - 1], p);
      if us[|us| - 1].unref == q then us[|us| - 1].ref else q
  }

  lemma {:induction false} RunConsistent(v: View, us: seq<BlockUpdate>)
    requires Consistent(v) && AdmissibleAll(v, us)
    ensures Consistent(MovedAll(v, us))
  {
    if us != [] {
      RunConsistent(v, us[..|us| - 1]);
      MovedConsistent(MovedAll(v, us[..|us| - 1]), us[|us| - 1]);
    }
  }

  lemma {:induction false} UnseenStaysPut(us: seq<BlockUpdate>, p: BlockPointer)
    requires AdmissibleAll(NO_NODES, us)
    ensures p !in MovedAll(NO_NODES, us).home ==> Origin(us, p) == p && Latest(us, p) == p
  {
    if us != [] {
      UnseenStaysPut(us[..|us| - 1], p);
    }
  }

  /** After any admissible list of updates, home is the backward walk: every pointer a node has had is traced to the
      node's first pointer, however often the node moved. */
  lemma {:induction false} HomeIsOrigin(us: seq<BlockUpdate>, p: BlockPointer)
    requires AdmissibleAll(NO_NODES, us)
    ensures var v := MovedAll(NO_NODES, us); p in v.home ==> v.home[p] == Origin(us, p)
  {
    if us != [] {
      var before, u := us[..|us| - 1], us[|us| - 1];
      var q := if u.ref == p then u.unref else p;
      RunConsistent(NO_NODES, before);
      AdmissiblePlaced(MovedAll(NO_NODES, before), u);
      HomeIsOrigin(before, q);
      UnseenStaysPut(before, q);
    }
  }

  /** After any admissible list of updates, tip is the forward walk from the node's first pointer. */
  lemma {:induction false} TipIsLatest(us: seq<BlockUpdate>, o: BlockPointer)
    requires AdmissibleAll(NO_NODES, us)
    ensures var v := MovedAll(NO_NODES, us); o in v.tip ==> v.tip[o] == Latest(us, o)
  {
    if us != [] {
      var before, u := us[..|us| - 1], us[|us| - 1];
      var v := MovedAll(NO_NODES, before);
      RunConsistent(NO_NODES, before);
      AdmissiblePlaced(v, u);
      TipIsLatest(before, o);
      UnseenStaysPut(before, o);
      assert o in v.tip ==> v.curr[v.tip[o]] == o;
    }
  }

  /** A pointer is current exactly if no update has replaced it. */
  lemma {:induction false} CurrentIsLatest(us: seq<BlockUpdate>, p: BlockPointer)
    requires AdmissibleAll(NO_NODES, us)
    ensures var v := MovedAll(NO_NODES, us); p in v.home ==> (p in v.curr <==> Latest(us, p) == p)
  {
    if us != [] {
      var before, u := us[..|us| - 1], us[|us| - 1];
      var v := MovedAll(NO_NODES, before);
      RunConsistent(NO_NODES, before);
      AdmissiblePlaced(v, u);
      CurrentIsLatest(before, p);
      UnseenStaysPut(before, p);
      assert p in v.home ==> p in v.known;
    }
  }

  // ---------- What one operation does to the nodes ----------

  /** A rename, as far as the index is concerned: the node, and the current pointers of its parents. */
  datatype Move = Move(node: BlockPointer, from: BlockPointer, oldName: string, to: BlockPointer, newName: string)

  /** An operation that lands on the node that currently has the pointer. */
  datatype Landing = Landing(at: BlockPointer, op: Op)

  /** What an operation does to the index: the pointers it updates, the node it only refers to, the blocks it
      references and drops, the operations it puts into chains, and the node it moves.  made is the create half of
      a rename. */
  datatype Change = Change(updates: seq<BlockUpdate>, target: Option<BlockPointer>,
                           refs: seq<BlockPointer>, unrefs: seq<BlockPointer>, valid: bool,
                           lands: seq<Landing>, made: Option<Landing>, move: Option<Move>)

  /** A rename is split into a remove in the old directory, a remove of what it overwrites, and a create in the new
      directory; its halves need directories that are set. */
  function ChangeOf(op: Op): Change {
    var plain := Change(AllUpdates(op), None, op.common.refs, op.common.unrefs, true, [], None, None);
    match op
    case CreateOp(_, _, dir, _, _) => plain.(lands := [Landing(dir.ref, op)])
    case RmOp(_, _, dir) => plain.(lands := [Landing(dir.ref, op)])
    case SyncOp(_, file) => plain.(lands := [Landing(file.ref, op)])
    case SetAttrOp(_, _, _, _, target) => plain.(target := Some(target), lands := [Landing(target, op)])
    case RenameOp(c, oldName, oldDir, newName, newDir, node, renamedType) =>
      var to := if newDir == NO_UPDATE then oldDir else newDir;
      plain.(valid := oldDir.unref != ZERO_PTR && to.unref != ZERO_PTR && (c.unrefs != [] ==> to.ref != ZERO_PTR),
             lands := [Landing(oldDir.ref, RmOp(NOTHING, oldName, oldDir))]
                      + if c.unrefs == [] then [] else [Landing(to.ref, RmOp(Common([], c.unrefs, []), newName, to))],
             made := Some(Landing(to.ref, CreateOp(NOTHING, newName, to, renamedType, true))),
             move := if IsInitialized(node) then Some(Move(node, oldDir.ref, oldName, to.ref, newName)) else None)
    case _ => plain
  }

  /** The pointer updates of a change.  A setAttr leaves its target's pointer alone but makes it a node. */
  function Updates(v: View, c: Change): seq<BlockUpdate> {
    WithTarget(v, c.updates, c.target)
  }

  function WithTarget(v: View, us: seq<BlockUpdate>, target: Option<BlockPointer>): seq<BlockUpdate> {
    if target.Some? && target.value !in MovedAll(v, us).curr then us + [BlockUpdate(target.value, target.value)] else us
  }

  /** The operations that land in chains.  The create half of a rename refers to the renamed node's first pointer. */
  function Entries(c: Change, renamedOriginal: BlockPointer): seq<Landing> {
    if c.made.None? then c.lands
    else
      var refs := if c.move.Some? then [renamedOriginal] else [];
      c.lands + [c.made.value.(op := c.made.value.op.(common := Common(refs, [], [])))]
  }

  function NodeOf(c: Change): BlockPointer {
    if c.move.Some? then c.move.value.node else ZERO_PTR
  }

  function OpsOn(ops: map<BlockPointer, seq<Op>>, o: BlockPointer): seq<Op> {
    if o in ops then ops[o] else []
  }

  function Logged(v: View, at: BlockPointer, op: Op): View {
    var o := Root(v, at);
    v.(ops := v.ops[o := OpsOn(v.ops, o) + [op]])
  }

  function LoggedAll(v: View, es: seq<Landing>): View {
    if es == [] then v else Logged(LoggedAll(v, es[..|es| - 1]), es[|es| - 1].at, es[|es| - 1].op)
  }

  predicate AllCurrent(curr: Pointers, es: seq<Landing>) {
    es == [] || (AllCurrent(curr, es[..|es| - 1]) && es[|es| - 1].at in curr)
  }

  lemma {:induction false} AllCurrentPrefix(curr: Pointers, es: seq<Landing>, i: nat)
    requires i <= |es| && AllCurrent(curr, es)
    ensures AllCurrent(curr, es[..i])
  {
    if i == |es| {
      assert es[..i] == es;
    } else {
      assert es[..|es| - 1][..i] == es[..i];
      AllCurrentPrefix(curr, es[..|es| - 1], i);
    }
  }

  lemma EntryFails(curr: Pointers, es: seq<Landing>, i: nat)
    requires i < |es| && es[i].at !in curr
    ensures !AllCurrent(curr, es)
  {
  }

  function Recorded(v: View, c: Change): View {
    v.(created := v.created + (set p | p in c.refs),
       deleted := v.deleted + (set p | p in c.unrefs :: Root(v, p)))
  }

  function Renamed(v: View, move: Option<Move>): View {
    if move.None? then v
    else
      var m := move.value;
      var x := Root(v, m.node);
      var to, from := Root(v, m.to), Root(v, m.from);
      var info := if x in v.renamed then v.renamed[x].(originalNewParent := to, newName := m.newName)
                  else RenameInfo(from, m.oldName, to, m.newName);
      v.(renamed := v.renamed[x := info], known := v.known + {m.node})
  }

  function Prepared(v: View, c: Change): View {
    Recorded(MovedAll(v, Updates(v, c)), c)
  }

  /** The nodes after a change, or an error if part of it lands on a pointer that no node currently has. */
  function Performed(v: View, c: Change): Result<View> {
    var w := Prepared(v, c);
    var es := Entries(c, Root(w, NodeOf(c)));
    if c.valid && AllCurrent(w.curr, es) then Ok(Renamed(LoggedAll(w, es), c.move)) else Err
  }

  predicate AdmissibleChange(v: View, c: Change) {
    && AdmissibleAll(v, Updates(v, c))
    && (c.move.Some? ==>
          var w := MovedAll(v, Updates(v, c)); c.move.value.node in w.curr || c.move.value.node !in w.home)
  }

  lemma {:induction false} AdmissiblePrefix(v: View, us: seq<BlockUpdate>, i: nat)
    requires i <= |us| && AdmissibleAll(v, us)
    ensures AdmissibleAll(v, us[..i])
  {
    if i < |us| {
      var p := us[..|us| - 1];
      AdmissiblePrefix(v, p, i);
      assert p[..i] == us[..i];
    } else {
      assert us[..i] == us;
    }
  }

  lemma {:induction false} MovedAllKeepsMarks(v: View, us: seq<BlockUpdate>)
    ensures var w := MovedAll(v, us);
            w.ops == v.ops && w.created == v.created && w.deleted == v.deleted && w.renamed == v.renamed
  {
    if us != [] {
      MovedAllKeepsMarks(v, us[..|us| - 1]);
    }
  }

  lemma LoggedAllStep(v: View, es: seq<Landing>, i: nat)
    requires i < |es|
    ensures LoggedAll(v, es[..i + 1]) == Logged(LoggedAll(v, es[..i]), es[i].at, es[i].op)
    ensures AllCurrent(v.curr, es[..i + 1]) <==> AllCurrent(v.curr, es[..i]) && es[i].at in v.curr
  {
    assert es[..i + 1][..i] == es[..i];
  }

  lemma {:induction false} LoggedAllKeepsIndex(v: View, es: seq<Landing>)
    ensures var w := LoggedAll(v, es); w == v.(ops := w.ops)
  {
    if es != [] {
      LoggedAllKeepsIndex(v, es[..|es| - 1]);
    }
  }

  // ---------- Giving a node a different first pointer ----------

  function Swapped(s: set<BlockPointer>, x: BlockPointer, y: BlockPointer): set<BlockPointer> {
    if x in s then s - {x} + {y} else s
  }

  function Rekeyed<T>(m: map<BlockPointer, T>, x: BlockPointer, y: BlockPointer): map<BlockPointer, T> {
    if x in m then (m - {x})[y := m[x]] else m
  }

  function Revalued(m: Pointers, x: BlockPointer, y: BlockPointer): Pointers {
    map p | p in m :: if m[p] == x then y else m[p]
  }

  /** The node first seen as x counts as first seen as y from now on; x stays one of its pointers. */
  function Rehomed(v: View, x: BlockPointer, y: BlockPointer): View
    requires x in v.tip
  {
    v.(home := Revalued(v.home, x, y)[y := y],
       tip := (v.tip - {x})[y := if v.tip[x] == x then y else v.tip[x]],
       curr := if v.tip[x] == x then Revalued(v.curr - {x}, x, y)[y := y] else Revalued(v.curr, x, y),
       originals := v.originals[x := y],
       ops := Rekeyed(v.ops - {y}, x, y),
       created := Swapped(v.created, x, y),
       deleted := Swapped(v.deleted, x, y),
       renamed := Rekeyed(v.renamed, x, y),
       known := v.known + {y})
  }

  // ---------- Following a pointer back to its node ----------

  /** Every step through originals stays inside a node and lowers the rank, until it ends at the first pointer. */
  ghost predicate Leads(originals: Pointers, home: Pointers,
                        rank: map<BlockPointer, nat>)
  {
    && (forall p :: p in originals ==> p in home)
    && (forall p :: p in home ==> p in rank)
    && forall p :: p in home ==>
                     if p !in originals then home[p] == p
                     else
                       && home[p] != p
                       && originals[p] in home && home[originals[p]] == home[p]
                       && rank[originals[p]] < rank[p]
  }

  ghost function Follow(originals: Pointers, p: BlockPointer, n: nat): BlockPointer
    decreases n
  {
    if n == 0 || p !in originals then p else Follow(originals, originals[p], n - 1)
  }

  lemma {:induction false} FollowEndsHome(originals: Pointers,
                                          home: Pointers,
                                          rank: map<BlockPointer, nat>, p: BlockPointer, n: nat)
    requires Leads(originals, home, rank) && p in home && rank[p] <= n
    ensures Follow(originals, p, n) == home[p] && home[p] !in originals
    decreases n
  {
    if p in originals {
      FollowEndsHome(originals, home, rank, originals[p], n - 1);
    }
  }

  lemma {:induction false} FirstIsLowest(originals: Pointers,
                                         home: Pointers,
                                         rank: map<BlockPointer, nat>, p: BlockPointer)
    requires Leads(originals, home, rank) && p in home
    ensures home[p] in home && (p in originals ==> rank[home[p]] < rank[p])
    decreases rank[p]
  {
    if p in originals {
      FirstIsLowest(originals, home, rank, originals[p]);
    }
  }

  lemma LeadsMoved(v: View, u: BlockUpdate, originals: Pointers, rank: map<BlockPointer, nat>)
    requires Placed(v, u) && Leads(originals, v.home, rank)
    requires var o := Root(v, u.unref); if u.unref in v.home then o in v.home && v.home[o] == o else o !in originals
    ensures var o := Root(v, u.unref);
            Leads(if o != u.ref then originals[u.ref := o] else originals, Moved(v, u).home, RankMoved(v, u, rank))
  {
    if u.unref in v.home {
      FirstIsLowest(originals, v.home, rank, u.unref);
    }
    LeadsExtended(originals, v.home, rank, Root(v, u.unref), u.unref, u.ref);
  }

  lemma LeadsExtended(originals: Pointers, home: Pointers, rank: map<BlockPointer, nat>,
                      o: BlockPointer, from: BlockPointer, to: BlockPointer)
    requires Leads(originals, home, rank)
    requires if from in home then
               home[from] == o && o in home && home[o] == o && (from in originals ==> rank[o] < rank[from])
             else from == o && o !in originals
    requires to == from || to !in home
    ensures var r := if from in home then rank else rank[from := 0];
            Leads(if o != to then originals[to := o] else originals, home[from := o][to := o],
                  if to in home || to == from then r else r[to := 1 + if o in r then r[o] else 0])
  {
  }

  ghost function RankMoved(v: View, u: BlockUpdate, rank: map<BlockPointer, nat>): map<BlockPointer, nat>
    requires forall p :: p in v.home ==> p in rank
  {
    var o := Root(v, u.unref);
    var r := if u.unref in v.home then rank else rank[u.unref := 0];
    if u.ref in v.home || u.ref == u.unref then r else r[u.ref := 1 + if o in r then r[o] else 0]
  }

  // ---------- The index ----------

  type ChainMap = map<BlockPointer, CrChain>

  /** byOriginal has a chain per node, and byMostRecent finds the same chain under the node's current pointer. */
  ghost predicate OneToOne(tip: Pointers, curr: Pointers, byOriginal: ChainMap, byMostRecent: ChainMap) {
    && (forall o :: o in byOriginal <==> o in tip)
    && (forall m :: m in byMostRecent <==> m in curr)
    && (forall m :: m in curr ==> curr[m] in byOriginal && byMostRecent[m] == byOriginal[curr[m]])
  }

  /** after is before with o leading to chain. */
  ghost predicate Extends(before: ChainMap, after: ChainMap, o: BlockPointer, chain: CrChain) {
    && (forall x :: x in after <==> x in before || x == o)
    && (forall x :: x in after ==> after[x] == if x == o then chain else before[x])
  }

  lemma OneToOneMoved(tip: Pointers, curr: Pointers, byOriginal: ChainMap, byMostRecent: ChainMap, chain: CrChain,
                      o: BlockPointer, u: BlockUpdate, byOriginal': ChainMap, others: ChainMap)
    requires OneToOne(tip, curr, byOriginal, byMostRecent)
    requires Extends(byOriginal, byOriginal', o, chain)
    requires forall m :: m in curr && m != u.unref ==> curr[m] != o
    requires forall m :: m != u.ref ==> (m in others <==> m in byMostRecent && m != u.unref)
    requires forall m :: m in others && m != u.ref ==> others[m] == byMostRecent[m]
    ensures OneToOne(tip[o := u.ref], (curr - {u.unref})[u.ref := o], byOriginal', others[u.ref := chain])
  {
  }

  class CrChains {
    var byOriginal: ChainMap
    var byMostRecent: ChainMap
    var originals: Pointers
    var createdOriginals: set<BlockPointer>
    var deletedOriginals: set<BlockPointer>
    var renamedOriginals: map<BlockPointer, RenameInfo>

    ghost var chains: set<CrChain>

    ghost predicate ChainsHold(tip: Pointers, ops: map<BlockPointer, seq<Op>>)
      reads this`byOriginal, this`chains, chains
    {
      forall o :: o in byOriginal ==>
                    && byOriginal[o] in chains && o in tip
                    && byOriginal[o].original == o
                    && byOriginal[o].mostRecent == tip[o]
                    && byOriginal[o].ops == OpsOn(ops, o)
    }

    /** The two maps find the same chain under a node's first and under its current pointer. */
    ghost predicate Indexes(tip: Pointers, curr: Pointers, ops: map<BlockPointer, seq<Op>>)
      reads this`byOriginal, this`byMostRecent, this`chains, chains
    {
      OneToOne(tip, curr, byOriginal, byMostRecent) && ChainsHold(tip, ops)
    }

    ghost predicate Tracks(v: View)
      reads this`byOriginal, this`byMostRecent, this`originals, this`chains, chains
    {
      Indexes(v.tip, v.curr, v.ops) && originals == v.originals
    }

    ghost predicate Holds(v: View)
      reads this, chains
    {
      && Tracks(v)
      && createdOriginals == v.created
      && deletedOriginals == v.deleted
      && renamedOriginals == v.renamed
    }

    constructor ()
      ensures Holds(NO_NODES) && chains == {}
    {
      byOriginal, byMostRecent, originals := map[], map[], map[];
      createdOriginals, deletedOriginals, renamedOriginals := {}, {}, map[];
      chains := {};
    }

    method AddOp(at: BlockPointer, op: Op, ghost tip: Pointers, ghost curr: Pointers,
                 ghost ops: map<BlockPointer, seq<Op>>)
      returns (ok: bool)
      requires Indexes(tip, curr, ops)
      modifies chains`ops
      ensures ok <==> at in curr
      ensures Indexes(tip, curr, if ok then ops[curr[at] := OpsOn(ops, curr[at]) + [op]] else ops)
    {
      if at !in byMostRecent {
        return false;
      }
      var chain := byMostRecent[at];
      ghost var o := curr[at];
      assert chain == byOriginal[o];
      chain.ops := chain.ops + [op];
      forall x | x in byOriginal && x != o
        ensures byOriginal[x] != chain
      {
        assert old(byOriginal[x].original) == x;
      }
      return true;
    }

    /** Start or advance the chain that holds u.unref, and find it under u.ref from now on. */
    method ApplyUpdate(u: BlockUpdate, ghost v: View)
      requires Tracks(v) && Placed(v, u)
      modifies this`byOriginal, this`byMostRecent, this`originals, this`chains, chains`mostRecent
      ensures Tracks(Moved(v, u)) && fresh(chains - old(chains))
    {
      ghost var o := Root(v, u.unref);
      var chain, last := Advance(u, o, v.tip, v.curr, v.ops);
      Reindex(u, chain, last, o, v.tip, v.curr, old(byOriginal));
    }

    /** Point the chain that holds u.unref, or a new one, to u.ref; last is the pointer it had, if any. */
    method Advance(u: BlockUpdate, ghost o: BlockPointer, ghost tip: Pointers, ghost curr: Pointers,
                   ghost ops: map<BlockPointer, seq<Op>>)
      returns (chain: CrChain, last: BlockPointer)
      requires OneToOne(tip, curr, byOriginal, byMostRecent) && ChainsHold(tip, ops)
      requires if u.unref in curr then curr[u.unref] == o && o in tip && tip[o] == u.unref
               else o == u.unref && o !in tip && o !in ops
      modifies this`byOriginal, this`chains, chains`mostRecent
      ensures fresh(chains - old(chains)) && ChainsHold(tip[o := u.ref], ops)
      ensures chain.original == o && Extends(old(byOriginal), byOriginal, o, chain)
      ensures last == if u.unref in curr then u.unref else ZERO_PTR
    {
      if u.unref in byMostRecent {
        chain := byMostRecent[u.unref];
        assert chain == byOriginal[o];
        assert forall x :: x in byOriginal ==> byOriginal[x].original == x;
      } else {
        chain := new CrChain(u.unref, ZERO_PTR);
        byOriginal := byOriginal[u.unref := chain];
        chains := chains + {chain};
      }
      last := chain.mostRecent;
      chain.mostRecent := u.ref;
    }

    /** Make chain the one found under u.ref, instead of under the pointer it had before. */
    method Reindex(u: BlockUpdate, chain: CrChain, last: BlockPointer, ghost o: BlockPointer, ghost tip: Pointers,
                   ghost curr: Pointers, ghost before: ChainMap)
      requires OneToOne(tip, curr, before, byMostRecent) && Extends(before, byOriginal, o, chain)
      requires chain.original == o && last == if u.unref in curr then u.unref else ZERO_PTR
      requires forall m :: m in curr && m != u.unref ==> curr[m] != o
      requires u.ref == u.unref || IsInitialized(u.unref)
      modifies this`byMostRecent, this`originals
      ensures OneToOne(tip[o := u.ref], (curr - {u.unref})[u.ref := o], byOriginal, byMostRecent)
      ensures originals == if o == u.ref then old(originals) else old(originals)[u.ref := o]
    {
      var others := if IsInitialized(last) then byMostRecent - {last} else byMostRecent;
      OneToOneMoved(tip, curr, before, byMostRecent, chain, o, u, byOriginal, others);
      byMostRecent := others[u.ref := chain];
      if chain.original != u.ref {
        originals := originals[u.ref := chain.original];
      }
    }

    method ApplyAll(us: seq<BlockUpdate>, ghost v: View)
      requires Tracks(v) && Consistent(v) && AdmissibleAll(v, us)
      modifies this`byOriginal, this`byMostRecent, this`originals, this`chains, chains`mostRecent
      ensures Tracks(MovedAll(v, us)) && fresh(chains - old(chains))
    {
      ghost var w := v;
      assert us[..0] == [];
      for i := 0 to |us|
        invariant Tracks(w) && w == MovedAll(v, us[..i]) && fresh(chains - old(chains))
      {
        NextPlaced(v, us, i);
        ApplyUpdate(us[i], w);
        w := Moved(w, us[i]);
        assert us[..i + 1][..i] == us[..i];
      }
      assert us[..|us|] == us;
    }

    method OriginalFromMostRecentOrSame(p: BlockPointer, ghost v: View) returns (original: BlockPointer)
      requires Indexes(v.tip, v.curr, v.ops)
      ensures original == Root(v, p)
    {
      if p in byMostRecent {
        assert byMostRecent[p] == byOriginal[v.curr[p]];
        original := byMostRecent[p].original;
      } else {
        original := p;
      }
    }

    method MostRecentFromOriginalOrSame(o: BlockPointer, ghost v: View) returns (mostRecent: BlockPointer)
      requires Indexes(v.tip, v.curr, v.ops)
      ensures mostRecent == if o in v.tip then v.tip[o] else o
    {
      mostRecent := if o in byOriginal then byOriginal[o].mostRecent else o;
    }

    method Record(c: Change, ghost v: View)
      requires Indexes(v.tip, v.curr, v.ops) && createdOriginals == v.created && deletedOriginals == v.deleted
      modifies this`createdOriginals, this`deletedOriginals
      ensures createdOriginals == Recorded(v, c).created && deletedOriginals == Recorded(v, c).deleted
    {
      for i := 0 to |c.refs|
        invariant createdOriginals == v.created + set p | p in c.refs[..i]
        invariant deletedOriginals == v.deleted
      {
        createdOriginals := createdOriginals + {c.refs[i]};
      }
      var gone := Originals(c.unrefs, v);
      deletedOriginals := deletedOriginals + gone;
    }

    method Originals(ps: seq<BlockPointer>, ghost v: View) returns (os: set<BlockPointer>)
      requires Indexes(v.tip, v.curr, v.ops)
      ensures os == set p | p in ps :: Root(v, p)
    {
      os := {};
      for i := 0 to |ps|
        invariant os == set p | p in ps[..i] :: Root(v, p)
      {
        assert ps[..i + 1] == ps[..i] + [ps[i]];
        var o := OriginalFromMostRecentOrSame(ps[i], v);
        os := os + {o};
      }
      assert ps[..|ps|] == ps;
    }

    /** Append each operation to the chain of the node it lands on, stopping at the first that does not land. */
    method AddEntries(es: seq<Landing>, ghost v: View) returns (ok: bool)
      requires Indexes(v.tip, v.curr, v.ops)
      modifies chains`ops
      ensures ok <==> AllCurrent(v.curr, es)
      ensures ok ==> Indexes(v.tip, v.curr, LoggedAll(v, es).ops)
    {
      ghost var w := v;
      for i := 0 to |es|
        invariant w == LoggedAll(v, es[..i]) && w.tip == v.tip && w.curr == v.curr
        invariant Indexes(v.tip, v.curr, w.ops)
        invariant AllCurrent(v.curr, es[..i])
      {
        ok := AddOp(es[i].at, es[i].op, v.tip, v.curr, w.ops);
        LoggedAllStep(v, es, i);
        if !ok {
          EntryFails(v.curr, es, i);
          return;
        }
        w := Logged(w, es[i].at, es[i].op);
      }
      assert es[..|es|] == es;
      ok := true;
    }

    /** Follow an operation: advance the chains of the nodes it updates, remember what it creates and deletes, append
        it to the chains it concerns, and keep track of renames. */
    method MakeChainForOp(op: Op, ghost v: View) returns (ok: bool)
      requires Holds(v) && Consistent(v) && AdmissibleChange(v, ChangeOf(op))
      modifies this, chains
      ensures fresh(chains - old(chains))
      ensures ok <==> Performed(v, ChangeOf(op)).Ok?
      ensures ok ==> Holds(Performed(v, ChangeOf(op)).value)
    {
      ok := Perform(ChangeOf(op), v);
    }

    method Perform(c: Change, ghost v: View) returns (ok: bool)
      requires Holds(v) && Consistent(v) && AdmissibleChange(v, c)
      modifies this, chains
      ensures fresh(chains - old(chains))
      ensures ok <==> Performed(v, c).Ok?
      ensures ok ==> Holds(Performed(v, c).value)
    {
      Prepare(c, v);
      ghost var w := Prepared(v, c);
      var x := OriginalFromMostRecentOrSame(NodeOf(c), w);
      if !c.valid {
        return false;
      }
      ok := Attach(Entries(c, x), c.move, w);
    }

    method Prepare(c: Change, ghost v: View)
      requires Holds(v) && Consistent(v) && AdmissibleAll(v, Updates(v, c))
      modifies this, chains
      ensures fresh(chains - old(chains)) && Holds(Prepared(v, c))
    {
      UpdateNodes(c.updates, c.target, v);
      MovedAllKeepsMarks(v, Updates(v, c));
      Record(c, MovedAll(v, Updates(v, c)));
    }

    method Attach(es: seq<Landing>, move: Option<Move>, ghost w: View) returns (ok: bool)
      requires Holds(w)
      modifies this`renamedOriginals, chains`ops
      ensures ok <==> AllCurrent(w.curr, es)
      ensures ok ==> Holds(Renamed(LoggedAll(w, es), move))
    {
      ok := AddEntries(es, w);
      if ok && move.Some? {
        LoggedAllKeepsIndex(w, es);
        TrackRename(move.value, LoggedAll(w, es));
      } else {
        LoggedAllKeepsIndex(w, es);
      }
    }

    method UpdateNodes(us: seq<BlockUpdate>, target: Option<BlockPointer>, ghost v: View)
      requires Tracks(v) && Consistent(v) && AdmissibleAll(v, WithTarget(v, us, target))
      modifies this`byOriginal, this`byMostRecent, this`originals, this`chains, chains`mostRecent
      ensures fresh(chains - old(chains))
      ensures Tracks(MovedAll(v, WithTarget(v, us, target)))
    {
      ghost var all := WithTarget(v, us, target);
      AdmissiblePrefix(v, all, |us|);
      assert all[..|us|] == us;
      ApplyAll(us, v);
      if target.Some? && target.value !in byMostRecent {
        NextPlaced(v, all, |us|);
        ApplyUpdate(BlockUpdate(target.value, target.value), MovedAll(v, us));
      }
    }

    method TrackRename(m: Move, ghost v: View)
      requires Indexes(v.tip, v.curr, v.ops) && renamedOriginals == v.renamed
      modifies this`renamedOriginals
      ensures renamedOriginals == Renamed(v, Some(m)).renamed
    {
      var to := OriginalFromMostRecentOrSame(m.to, v);
      var from := OriginalFromMostRecentOrSame(m.from, v);
      var renamedOriginal := OriginalFromMostRecentOrSame(m.node, v);
      var ri := if renamedOriginal in renamedOriginals then renamedOriginals[renamedOriginal]
                else RenameInfo(from, m.oldName, ZERO_PTR, "");
      ri := ri.(originalNewParent := to, newName := m.newName);
      renamedOriginals := renamedOriginals[renamedOriginal := ri];
    }

    /** Change the first pointer of a chain.  Fails if there is no such chain or y already is a first pointer; any
        other y is accepted, also a pointer that some node has or had. */
    method ChangeOriginal(x: BlockPointer, y: BlockPointer, ghost v: View) returns (ok: bool)
      requires Holds(v)
      modifies this, chains`original, chains`mostRecent
      ensures ok <==> x in v.tip && y !in v.tip
      ensures Holds(if ok then Rehomed(v, x, y) else v)
    {
      if x !in byOriginal || y in byOriginal {
        return false;
      }
      Rekey(x, y, v.tip, v.curr, v.ops);
      Remark(x, y);
      return true;
    }

    method Remark(x: BlockPointer, y: BlockPointer)
      modifies this`originals, this`createdOriginals, this`deletedOriginals, this`renamedOriginals
      ensures originals == old(originals)[x := y]
      ensures createdOriginals == Swapped(old(createdOriginals), x, y)
      ensures deletedOriginals == Swapped(old(deletedOriginals), x, y)
      ensures renamedOriginals == Rekeyed(old(renamedOriginals), x, y)
    {
      originals := originals[x := y];
      if x in deletedOriginals {
        deletedOriginals := deletedOriginals - {x} + {y};
      }
      if x in createdOriginals {
        createdOriginals := createdOriginals - {x} + {y};
      }
      if x in renamedOriginals {
        var ri := renamedOriginals[x];
        renamedOriginals := (renamedOriginals - {x})[y := ri];
      }
    }

    method Rekey(x: BlockPointer, y: BlockPointer, ghost tip: Pointers, ghost curr: Pointers,
                 ghost ops: map<BlockPointer, seq<Op>>)
      requires Indexes(tip, curr, ops) && x in tip && y !in tip
      modifies this`byOriginal, this`byMostRecent, chains`original, chains`mostRecent
      ensures Indexes((tip - {x})[y := if tip[x] == x then y else tip[x]],
                      if tip[x] == x then Revalued(curr - {x}, x, y)[y := y] else Revalued(curr, x, y),
                      Rekeyed(ops - {y}, x, y))
    {
      var chain := byOriginal[x];
      forall o | o in byOriginal && o != x
        ensures byOriginal[o] != chain
      {
        assert byOriginal[o].original == o;
      }
      var mostRecent := if chain.mostRecent == x then y else chain.mostRecent;
      var byM := if chain.mostRecent == x then (byMostRecent - {x})[y := chain] else byMostRecent;
      OneToOneRehomed(tip, curr, byOriginal, byMostRecent, x, y, byM);
      byOriginal := (byOriginal - {x})[y := chain];
      byMostRecent := byM;
      chain.original := y;
      chain.mostRecent := mostRecent;
    }
  }

  lemma OneToOneRehomed(tip: Pointers, curr: Pointers, byOriginal: ChainMap, byMostRecent: ChainMap,
                        x: BlockPointer, y: BlockPointer, byM: ChainMap)
    requires OneToOne(tip, curr, byOriginal, byMostRecent) && x in tip && y !in tip
    requires byM == if tip[x] == x then (byMostRecent - {x})[y := byOriginal[x]] else byMostRecent
    ensures OneToOne((tip - {x})[y := if tip[x] == x then y else tip[x]],
                     if tip[x] == x then Revalued(curr - {x}, x, y)[y := y] else Revalued(curr, x, y),
                     (byOriginal - {x})[y := byOriginal[x]], byM)
  {
  }

  lemma NextPlaced(v: View, us: seq<BlockUpdate>, i: nat)
    requires Consistent(v) && AdmissibleAll(v, us) && i < |us|
    ensures Placed(MovedAll(v, us[..i]), us[i])
  {
    AdmissiblePrefix(v, us, i + 1);
    assert us[..i + 1][..i] == us[..i];
    RunConsistent(v, us[..i]);
    AdmissiblePlaced(MovedAll(v, us[..i]), us[i]);
  }
}

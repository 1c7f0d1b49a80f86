/** What the chains of a branch mean: replaying the collapsed chain of each directory gives what the operations of the
    branch made of it (libkbfs/cr_chains.go). */
module BranchMeaning {
  import opened Outcomes
  import opened Ops
  import opened ChainCollapse
  import opened ChainIndex
  import opened ChainRuns
  import opened ChainBuild

  // ---------- The operations on a tree of directories ----------

  /** The entries of a directory, as names for nodes; nodes go by their first pointers. */
  type Names = map<string, BlockPointer>

  type World = map<BlockPointer, Names>

  function Dir(w: World, o: BlockPointer): Names {
    if o in w then w[o] else map[]
  }

  function Put(w: World, o: BlockPointer, n: string, node: BlockPointer): World {
    w[o := Dir(w, o)[n := node]]
  }

  function Drop(w: World, o: BlockPointer, n: string): World {
    w[o := Dir(w, o) - {n}]
  }

  /** The node that a create makes is the block it references. */
  function Born(c: Common): BlockPointer {
    if c.refs != [] then c.refs[0] else ZERO_PTR
  }

  function Target(oldDir: BlockUpdate, newDir: BlockUpdate): BlockUpdate {
    if newDir == NO_UPDATE then oldDir else newDir
  }

  /** What an operation does to the tree, after pointer updates us.  A rename moves the entry. */
  function TreeStep(us: seq<BlockUpdate>, op: Op, w: World): World {
    match op
    case CreateOp(c, n, dir, _, _) => Put(w, Origin(us, dir.ref), n, Born(c))
    case RmOp(_, n, dir) => Drop(w, Origin(us, dir.ref), n)
    case RenameOp(_, oldName, oldDir, newName, newDir, _, _) =>
      var from, to := Origin(us, oldDir.ref), Origin(us, Target(oldDir, newDir).ref);
      if oldName in Dir(w, from) then Put(Drop(w, from, oldName), to, newName, Dir(w, from)[oldName]) else w
    case _ => w
  }

  /** How much is known of the operations of a branch.  Loose: a rename tells the node it moves.  Checked: also
      what the file system checks before an operation, that a created name is free and a removed one is there, and
      that a rename unreferences blocks only if it overwrites an entry.  Telling: also that it does so whenever it
      overwrites one, which is not so for entries without blocks, like symlinks. */
  datatype Rules = Loose | Checked | Telling

  predicate FitsTree(rules: Rules, us: seq<BlockUpdate>, op: Op, w: World) {
    match op
    case CreateOp(_, n, dir, _, _) => rules.Loose? || n !in Dir(w, Origin(us, dir.ref))
    case RmOp(_, n, dir) => rules.Loose? || n in Dir(w, Origin(us, dir.ref))
    case RenameOp(c, oldName, oldDir, newName, newDir, node, _) =>
      var from, to := Origin(us, oldDir.ref), Origin(us, Target(oldDir, newDir).ref);
      && oldName in Dir(w, from)
      && Dir(w, from)[oldName] == (if IsInitialized(node) then Origin(us, node) else ZERO_PTR)
      && (rules.Loose? || c.unrefs == [] || newName in Dir(Drop(w, from, oldName), to))
      && (rules.Telling? ==> c.unrefs != [] || newName !in Dir(Drop(w, from, oldName), to))
    case _ => true
  }

  /** What the directories held before the branch. */
  type Start = map<BlockPointer, Directory>

  function StartDir(start: Start, o: BlockPointer): Directory {
    if o in start then start[o] else map[]
  }

  function NodeOfEntry(e: Entry): BlockPointer {
    match e
    case Existing(id) => id
    case Made(op) => Born(op.common)
  }

  function NamesOf(d: Directory): Names {
    map n | n in d :: NodeOfEntry(d[n])
  }

  function WorldAfter(ops: seq<Op>, start: Start): World {
    if |ops| == 0 then map o | o in start :: NamesOf(start[o])
    else TreeStep(Raw(Changes(ops)), ops[|ops| - 1], WorldAfter(ops[..|ops| - 1], start))
  }

  predicate FitsAll(rules: Rules, ops: seq<Op>, start: Start) {
    |ops| == 0 ||
    (FitsAll(rules, ops[..|ops| - 1], start)
     && FitsTree(rules, Raw(Changes(ops)), ops[|ops| - 1], WorldAfter(ops[..|ops| - 1], start)))
  }

  lemma {:induction false} FitsLoosely(rules: Rules, ops: seq<Op>, start: Start)
    requires FitsAll(rules, ops, start)
    ensures FitsAll(Loose, ops, start)
  {
    if |ops| > 0 {
      FitsLoosely(rules, ops[..|ops| - 1], start);
    }
  }

  // ---------- One operation in a chain ----------

  /** The chain is as the rules make it. */
  predicate Fair(rules: Rules, chain: seq<Op>, d: Directory) {
    match rules
    case Loose => true
    case Checked => Possible(chain, d)
    case Telling => WellFormed(chain, d)
  }

  /** The chain of directory o tells what became of the directory. */
  ghost predicate Told(rules: Rules, log: OpMap, start: Start, w: World, o: BlockPointer) {
    var chain, d := OpsOn(log, o), StartDir(start, o);
    Fair(rules, chain, d) && NamesOf(Replay(chain, d)) == Dir(w, o)
  }

  ghost predicate AllTold(rules: Rules, log: OpMap, start: Start, w: World) {
    forall o :: Told(rules, log, start, w, o)
  }

  function Landed(log: OpMap, o: BlockPointer, op: Op): OpMap {
    log[o := OpsOn(log, o) + [op]]
  }

  /** The operation could be next in a directory with these names. */
  predicate Follows(rules: Rules, names: set<string>, op: Op) {
    match op
    case CreateOp(_, n, _, _, renamed) => rules.Loose? || (rules.Checked? && renamed) || n !in names
    case RmOp(_, n, _) => rules.Loose? || n in names
    case _ => true
  }

  lemma ReplayMore(rules: Rules, chain: seq<Op>, op: Op, d: Directory)
    ensures Replay(chain + [op], d) == Apply(op, Replay(chain, d))
    ensures Fair(rules, chain, d) && Follows(rules, Replay(chain, d).Keys, op) ==> Fair(rules, chain + [op], d)
  {
    assert (chain + [op])[..|chain + [op]| - 1] == chain;
  }

  lemma NamesAfter(d: Directory, op: Op)
    ensures op.CreateOp? ==> NamesOf(Apply(op, d)) == NamesOf(d)[op.newName := Born(op.common)]
    ensures op.RmOp? ==> NamesOf(Apply(op, d)) == NamesOf(d) - {op.oldName}
  {
  }

  /** A chain with one more operation, which the names of its directory allow. */
  lemma ChainMore(rules: Rules, chain: seq<Op>, d: Directory, names: Names, op: Op)
    requires Fair(rules, chain, d) && NamesOf(Replay(chain, d)) == names && (op.CreateOp? || op.RmOp?)
    requires Follows(rules, names.Keys, op)
    ensures Fair(rules, chain + [op], d)
    ensures NamesOf(Replay(chain + [op], d))
            == if op.CreateOp? then names[op.newName := Born(op.common)] else names - {op.oldName}
  {
    var now := Replay(chain, d);
    assert forall n :: n in now <==> n in NamesOf(now);
    ReplayMore(rules, chain, op, d);
    NamesAfter(now, op);
  }

  lemma LandCreate(rules: Rules, log: OpMap, start: Start, w: World, o: BlockPointer, op: Op)
    requires AllTold(rules, log, start, w) && op.CreateOp? && Follows(rules, Dir(w, o).Keys, op)
    ensures AllTold(rules, Landed(log, o, op), start, Put(w, o, op.newName, Born(op.common)))
  {
    assert Told(rules, log, start, w, o);
    ChainMore(rules, OpsOn(log, o), StartDir(start, o), Dir(w, o), op);
    OthersTold(rules, log, start, w, o, op, Put(w, o, op.newName, Born(op.common)));
  }

  lemma LandRm(rules: Rules, log: OpMap, start: Start, w: World, o: BlockPointer, op: Op)
    requires AllTold(rules, log, start, w) && op.RmOp? && Follows(rules, Dir(w, o).Keys, op)
    ensures AllTold(rules, Landed(log, o, op), start, Drop(w, o, op.oldName))
  {
    assert Told(rules, log, start, w, o);
    ChainMore(rules, OpsOn(log, o), StartDir(start, o), Dir(w, o), op);
    OthersTold(rules, log, start, w, o, op, Drop(w, o, op.oldName));
  }

  lemma OthersTold(rules: Rules, log: OpMap, start: Start, w: World, o: BlockPointer, op: Op, w': World)
    requires AllTold(rules, log, start, w) && Told(rules, Landed(log, o, op), start, w', o)
    requires forall x :: x != o ==> Dir(w', x) == Dir(w, x)
    ensures AllTold(rules, Landed(log, o, op), start, w')
  {
    forall x | x != o
      ensures Told(rules, Landed(log, o, op), start, w', x)
    {
      assert Told(rules, log, start, w, x);
      assert OpsOn(Landed(log, o, op), x) == OpsOn(log, x);
    }
  }

  lemma LandOther(rules: Rules, log: OpMap, start: Start, w: World, o: BlockPointer, op: Op)
    requires AllTold(rules, log, start, w) && (op.SyncOp? || op.SetAttrOp?)
    ensures AllTold(rules, Landed(log, o, op), start, w)
  {
    forall x
      ensures Told(rules, Landed(log, o, op), start, w, x)
    {
      assert Told(rules, log, start, w, x);
      if x == o {
        ReplayMore(rules, OpsOn(log, o), op, StartDir(start, o));
      }
    }
  }

  /** A rename in a chain: out of the old directory, over what is in the way, and into the new one. */
  lemma LandRename(rules: Rules, log: OpMap, start: Start, w: World, from: BlockPointer, to: BlockPointer, out: Op,
                   over: Option<Op>, into: Op)
    requires AllTold(rules, log, start, w) && out.RmOp? && into.CreateOp? && (over.Some? ==> over.value.RmOp?)
    requires out.oldName in Dir(w, from) && Dir(w, from)[out.oldName] == Born(into.common)
    requires over.Some? ==> over.value.oldName == into.newName
    requires into.renamed
    requires rules.Loose? || over.None? || into.newName in Dir(Drop(w, from, out.oldName), to)
    requires rules.Telling? ==> over.Some? || into.newName !in Dir(Drop(w, from, out.oldName), to)
    ensures var log1 := Landed(log, from, out);
            var log2 := if over.Some? then Landed(log1, to, over.value) else log1;
            AllTold(rules, Landed(log2, to, into), start,
                    Put(Drop(w, from, out.oldName), to, into.newName, Dir(w, from)[out.oldName]))
  {
    LandRm(rules, log, start, w, from, out);
    var log1, w1 := Landed(log, from, out), Drop(w, from, out.oldName);
    if over.Some? {
      LandRm(rules, log1, start, w1, to, over.value);
      var log2, w2 := Landed(log1, to, over.value), Drop(w1, to, into.newName);
      LandCreate(rules, log2, start, w2, to, into);
      SameWorld(rules, Landed(log2, to, into), start, Put(w2, to, into.newName, Born(into.common)),
                Put(w1, to, into.newName, Born(into.common)), to);
    } else {
      LandCreate(rules, log1, start, w1, to, into);
    }
  }

  lemma SameWorld(rules: Rules, log: OpMap, start: Start, w: World, w': World, o: BlockPointer)
    requires AllTold(rules, log, start, w) && Dir(w, o) == Dir(w', o)
    requires forall x :: x != o ==> (x in w <==> x in w') && (x in w ==> w[x] == w'[x])
    ensures AllTold(rules, log, start, w')
  {
    forall x
      ensures Told(rules, log, start, w', x)
    {
      assert Told(rules, log, start, w, x);
    }
  }

  // ---------- One operation of the branch ----------

  /** What a change logs, with the nodes of its landings given by their trails. */
  function LogOf(log: OpMap, us: seq<BlockUpdate>, es: seq<Landing>, n: nat): OpMap
    requires n <= |es|
  {
    if n == 0 then log else Landed(LogOf(log, us, es, n - 1), Origin(us, es[n - 1].at), es[n - 1].op)
  }

  lemma {:induction false} LoggedIsLogOf(w: View, us: seq<BlockUpdate>, es: seq<Landing>, n: nat)
    requires n <= |es| && forall i :: 0 <= i < |es| ==> Root(w, es[i].at) == Origin(us, es[i].at)
    ensures LoggedAll(w, es[..n]).ops == LogOf(w.ops, us, es, n)
  {
    if n > 0 {
      LoggedIsLogOf(w, us, es, n - 1);
      LoggedAllStep(w, es, n - 1);
      LoggedAllKeepsIndex(w, es[..n - 1]);
    }
  }

  /** What an operation logs. */
  function OpLog(log: OpMap, us: seq<BlockUpdate>, op: Op): OpMap {
    var es := Entries(ChangeOf(op), Origin(us, NodeOf(ChangeOf(op))));
    LogOf(log, us, es, |es|)
  }

  /** In the tree and in the chains, an operation does the same. */
  lemma LogTells(rules: Rules, log: OpMap, start: Start, w: World, us: seq<BlockUpdate>, op: Op)
    requires AllTold(rules, log, start, w) && FitsTree(rules, us, op, w)
    ensures AllTold(rules, OpLog(log, us, op), start, TreeStep(us, op, w))
  {
    match op
    case CreateOp(_, _, dir, _, _) =>
      OneLogged(log, us, op, dir.ref);
      LandCreate(rules, log, start, w, Origin(us, dir.ref), op);
    case RmOp(_, _, dir) =>
      OneLogged(log, us, op, dir.ref);
      LandRm(rules, log, start, w, Origin(us, dir.ref), op);
    case SyncOp(_, file) =>
      OneLogged(log, us, op, file.ref);
      LandOther(rules, log, start, w, Origin(us, file.ref), op);
    case SetAttrOp(_, _, _, _, target) =>
      OneLogged(log, us, op, target);
      LandOther(rules, log, start, w, Origin(us, target), op);
    case RenameOp(_, _, _, _, _, _, _) =>
      RenameTells(rules, log, start, w, us, op);
    case _ =>
  }

  lemma OneLogged(log: OpMap, us: seq<BlockUpdate>, op: Op, at: BlockPointer)
    requires Entries(ChangeOf(op), Origin(us, NodeOf(ChangeOf(op)))) == [Landing(at, op)]
    ensures OpLog(log, us, op) == Landed(log, Origin(us, at), op)
  {
    var es := Entries(ChangeOf(op), Origin(us, NodeOf(ChangeOf(op))));
    assert LogOf(log, us, es, 0) == log;
  }

  /** The three operations that a rename is split into. */
  function OutOf(op: Op): Op
    requires op.RenameOp?
  {
    RmOp(NOTHING, op.oldName, op.oldDir)
  }

  function OverOf(op: Op): Option<Op>
    requires op.RenameOp?
  {
    if op.common.unrefs == [] then None
    else Some(RmOp(Common([], op.common.unrefs, []), op.newName, Target(op.oldDir, op.newDir)))
  }

  function IntoOf(us: seq<BlockUpdate>, op: Op): Op
    requires op.RenameOp?
  {
    CreateOp(Common(if IsInitialized(op.node) then [Origin(us, op.node)] else [], [], []), op.newName,
             Target(op.oldDir, op.newDir), op.renamedType, true)
  }

  lemma RenameLogged(log: OpMap, us: seq<BlockUpdate>, op: Op)
    requires op.RenameOp?
    ensures var from, to := Origin(us, op.oldDir.ref), Origin(us, Target(op.oldDir, op.newDir).ref);
            var log1 := Landed(log, from, OutOf(op));
            var log2 := if OverOf(op).Some? then Landed(log1, to, OverOf(op).value) else log1;
            OpLog(log, us, op) == Landed(log2, to, IntoOf(us, op))
  {
    var es := Entries(ChangeOf(op), Origin(us, NodeOf(ChangeOf(op))));
    var to := Target(op.oldDir, op.newDir).ref;
    var first, last := [Landing(op.oldDir.ref, OutOf(op))], [Landing(to, IntoOf(us, op))];
    assert es == if OverOf(op).Some? then first + [Landing(to, OverOf(op).value)] + last else first + last;
    ShortLog(log, us, es);
  }

  lemma ShortLog(log: OpMap, us: seq<BlockUpdate>, es: seq<Landing>)
    requires 2 <= |es| <= 3
    ensures var log1 := Landed(log, Origin(us, es[0].at), es[0].op);
            var log2 := if |es| == 3 then Landed(log1, Origin(us, es[1].at), es[1].op) else log1;
            LogOf(log, us, es, |es|) == Landed(log2, Origin(us, es[|es| - 1].at), es[|es| - 1].op)
  {
    var log1 := Landed(log, Origin(us, es[0].at), es[0].op);
    assert LogOf(log, us, es, 1) == log1;
    assert LogOf(log, us, es, 2) == Landed(log1, Origin(us, es[1].at), es[1].op);
  }

  lemma RenameTells(rules: Rules, log: OpMap, start: Start, w: World, us: seq<BlockUpdate>, op: Op)
    requires AllTold(rules, log, start, w) && FitsTree(rules, us, op, w) && op.RenameOp?
    ensures AllTold(rules, OpLog(log, us, op), start, TreeStep(us, op, w))
  {
    RenameLogged(log, us, op);
    var from, to := Origin(us, op.oldDir.ref), Origin(us, Target(op.oldDir, op.newDir).ref);
    LandRename(rules, log, start, w, from, to, OutOf(op), OverOf(op), IntoOf(us, op));
  }

  // ---------- The branch ----------

  lemma ChangesPrefix(ops: seq<Op>)
    requires |ops| > 0
    ensures var cs := Changes(ops);
            cs[..|cs| - 1] == Changes(ops[..|ops| - 1]) && |cs| == |ops| && cs[|cs| - 1] == ChangeOf(ops[|ops| - 1])
  {
  }

  /** The landings of the last operation go where the trails say. */
  lemma LandingsFollowTrails(cs: seq<Change>, v: View)
    requires |cs| > 0 && AdmissibleRun(cs) && Run(cs).Ok? && Run(cs[..|cs| - 1]) == Ok(v)
    ensures var c := cs[|cs| - 1];
            var w := Prepared(v, c);
            var es := Entries(c, Root(w, NodeOf(c)));
            && (forall i :: 0 <= i < |es| ==> Root(w, es[i].at) == Origin(Raw(cs), es[i].at))
            && (c.move.Some? ==> Root(w, NodeOf(c)) == Origin(Raw(cs), NodeOf(c)))
            && Run(cs).value.ops == LoggedAll(w, es).ops && w.ops == v.ops
  {
    var c := cs[|cs| - 1];
    var w, v' := Prepared(v, c), Run(cs).value;
    var es := Entries(c, Root(w, NodeOf(c)));
    PerformedKeepsIndex(v, c);
    MovedAllKeepsMarks(v, Updates(v, c));
    assert v'.curr == w.curr && v'.home == w.home;
    forall i | 0 <= i < |es|
      ensures Root(w, es[i].at) == Origin(Raw(cs), es[i].at)
    {
      AllCurrentAt(w.curr, es, i);
      IndexFollowsTrails(cs, es[i].at);
    }
    if c.move.Some? {
      IndexFollowsTrails(cs, NodeOf(c));
    }
  }

  /** After any admissible branch whose operations fit the tree, every chain is well formed and tells what became
      of its directory. */
  lemma {:induction false} BranchTold(rules: Rules, ops: seq<Op>, start: Start)
    requires AdmissibleRun(Changes(ops)) && Run(Changes(ops)).Ok? && FitsAll(rules, ops, start)
    ensures AllTold(rules, Run(Changes(ops)).value.ops, start, WorldAfter(ops, start))
  {
    if |ops| == 0 {
      StartTold(rules, Run(Changes(ops)).value.ops, start, WorldAfter(ops, start));
    } else {
      var p, op, cs := ops[..|ops| - 1], ops[|ops| - 1], Changes(ops);
      ChangesPrefix(ops);
      var v := Run(Changes(p)).value;
      BranchTold(rules, p, start);
      LandingsFollowTrails(cs, v);
      BranchStep(rules, cs, v, op, start, WorldAfter(p, start));
    }
  }

  lemma StartTold(rules: Rules, log: OpMap, start: Start, w: World)
    requires |log| == 0 && w == map o | o in start :: NamesOf(start[o])
    ensures AllTold(rules, log, start, w)
  {
    forall o
      ensures Told(rules, log, start, w, o)
    {
      assert |OpsOn(log, o)| == 0;
    }
  }

  /** What the last change of a branch logs. */
  lemma ChangeLogs(cs: seq<Change>, v: View, c: Change)
    requires |cs| > 0 && AdmissibleRun(cs) && Run(cs).Ok? && Run(cs[..|cs| - 1]) == Ok(v) && cs[|cs| - 1] == c
    ensures var es := Entries(c, Origin(Raw(cs), NodeOf(c)));
            Run(cs).value.ops == LogOf(v.ops, Raw(cs), es, |es|)
  {
    var w := Prepared(v, c);
    var es := Entries(c, Root(w, NodeOf(c)));
    LandingsFollowTrails(cs, v);
    EntriesSame(c, Root(w, NodeOf(c)), Origin(Raw(cs), NodeOf(c)));
    LoggedAsTrails(w, Raw(cs), es);
  }

  lemma EntriesSame(c: Change, x: BlockPointer, y: BlockPointer)
    requires c.move.Some? ==> x == y
    ensures Entries(c, x) == Entries(c, y)
  {
  }

  lemma LoggedAsTrails(w: View, us: seq<BlockUpdate>, es: seq<Landing>)
    requires forall i :: 0 <= i < |es| ==> Root(w, es[i].at) == Origin(us, es[i].at)
    ensures LoggedAll(w, es).ops == LogOf(w.ops, us, es, |es|)
  {
    LoggedIsLogOf(w, us, es, |es|);
    assert es[..|es|] == es;
  }

  lemma BranchStep(rules: Rules, cs: seq<Change>, v: View, op: Op, start: Start, w0: World)
    requires |cs| > 0 && AdmissibleRun(cs) && Run(cs).Ok? && Run(cs[..|cs| - 1]) == Ok(v)
    requires cs[|cs| - 1] == ChangeOf(op) && AllTold(rules, v.ops, start, w0) && FitsTree(rules, Raw(cs), op, w0)
    ensures AllTold(rules, Run(cs).value.ops, start, TreeStep(Raw(cs), op, w0))
  {
    ChangeLogs(cs, v, ChangeOf(op));
    LogTells(rules, v.ops, start, w0, Raw(cs), op);
  }

  /** The chain of directory o. */
  function ChainOf(ops: seq<Op>, o: BlockPointer): seq<Op>
    requires Run(Changes(ops)).Ok?
  {
    OpsOn(Run(Changes(ops)).value.ops, o)
  }

  /** The collapsed chain of directory o, replayed on what the directory held before, gives what the branch made of
      it. */
  ghost predicate CollapsedMeans(ops: seq<Op>, start: Start, o: BlockPointer)
    requires Run(Changes(ops)).Ok?
  {
    var chains := CollapsedEach(Run(Changes(ops)).value.ops);
    NamesOf(Replay(OpsOn(chains, o), StartDir(start, o))) == Dir(WorldAfter(ops, start), o)
  }

  lemma SameNames(chain: seq<Op>, d: Directory)
    ensures NamesOf(Replay(Collapsed(chain), d)) == NamesOf(Replay(chain, d))
            <==> forall n :: EndsRemoved(chain, n) ==> !Leftover(chain, n, n in d)
  {
    var a, b := Replay(Collapsed(chain), d), Replay(chain, d);
    CollapsePreservesReplay(chain, d);
    forall n | EndsRemoved(chain, n) && Leftover(chain, n, n in d)
      ensures n in NamesOf(a) && n !in NamesOf(b)
    {
      ComesBack(chain, d, n);
    }
  }

  /** A name that is removed and left over comes back. */
  lemma ComesBack(chain: seq<Op>, d: Directory, n: string)
    requires EndsRemoved(chain, n) && Leftover(chain, n, n in d)
    ensures n in Replay(Collapsed(chain), d) && n !in Replay(chain, d)
  {
    ChainCollapse.CollapseAt(chain, n, d);
    FullReplayAt(chain, n, d);
    assert Lookup(Replay(chain, d), n) == None;
  }

  /** For any branch whose renames tell what they move: the collapsed chain of a directory means the same exactly if no
      name of it that ends up removed is left over by collapsing. */
  lemma CollapsedBranchExact(ops: seq<Op>, start: Start, o: BlockPointer)
    requires AdmissibleRun(Changes(ops)) && Run(Changes(ops)).Ok? && FitsAll(Loose, ops, start)
    ensures var chain, d := ChainOf(ops, o), StartDir(start, o);
            CollapsedMeans(ops, start, o) <==> forall n :: EndsRemoved(chain, n) ==> !Leftover(chain, n, n in d)
  {
    BranchTold(Loose, ops, start);
    assert Told(Loose, Run(Changes(ops)).value.ops, start, WorldAfter(ops, start), o);
    SameNames(ChainOf(ops, o), StartDir(start, o));
  }

  /** For any branch that the file system lets through: exactly if no name that ends up removed was renamed over,
      without unreferencing anything, while it was still the entry from before the branch. */
  lemma CheckedBranchExact(ops: seq<Op>, start: Start, o: BlockPointer)
    requires AdmissibleRun(Changes(ops)) && Run(Changes(ops)).Ok? && FitsAll(Checked, ops, start)
    ensures var chain, d := ChainOf(ops, o), StartDir(start, o);
            CollapsedMeans(ops, start, o) <==> forall n :: EndsRemoved(chain, n) ==> !Hides(chain, d, n)
  {
    BranchTold(Checked, ops, start);
    assert Told(Checked, Run(Changes(ops)).value.ops, start, WorldAfter(ops, start), o);
    FitsLoosely(Checked, ops, start);
    CollapsedBranchExact(ops, start, o);
    CollapsePreservesReplay(ChainOf(ops, o), StartDir(start, o));
    CollapseHides(ChainOf(ops, o), StartDir(start, o));
  }

  /** So it always does if every rename over an entry unreferences blocks. */
  lemma CollapsedBranchMeans(ops: seq<Op>, start: Start, o: BlockPointer)
    requires AdmissibleRun(Changes(ops)) && Run(Changes(ops)).Ok? && FitsAll(Telling, ops, start)
    ensures CollapsedMeans(ops, start, o)
  {
    BranchTold(Telling, ops, start);
    assert Told(Telling, Run(Changes(ops)).value.ops, start, WorldAfter(ops, start), o);
    FitsLoosely(Telling, ops, start);
    CollapsedBranchExact(ops, start, o);
    CollapseKeepsMeaning(ChainOf(ops, o), StartDir(start, o));
    CollapsePreservesReplay(ChainOf(ops, o), StartDir(start, o));
  }

  // ---------- A symlink that comes back ----------

  /** In directory 10, file f is renamed over symlink s, and then s is removed. */
  const RENAME_OVER := RenameOp(Common([], [], []), "f", BlockUpdate(10, 11), "s", NO_UPDATE, 5, File)
  const REMOVE := RmOp(Common([], [5], []), "s", BlockUpdate(11, 12))

  /** The chain that the two make. */
  function LinkChain(): seq<Op> {
    [RmOp(NOTHING, "f", BlockUpdate(10, 11)),
     CreateOp(Common([5], [], []), "s", BlockUpdate(10, 11), File, true),
     REMOVE]
  }

  /** A list of one update. */
  lemma OneMoved(v: View, us: seq<BlockUpdate>)
    requires |us| == 1
    ensures MovedAll(v, us) == Moved(v, us[0])
    ensures AdmissibleAll(v, us) <==> Admissible(v, us[0])
  {
    var none := us[..|us| - 1];
    assert none == [];
    assert MovedAll(v, none) == v;
  }

  /** A list of at most two landings. */
  lemma FewLogged(v: View, es: seq<Landing>)
    requires 1 <= |es| <= 2
    ensures AllCurrent(v.curr, es) <==> es[0].at in v.curr && es[|es| - 1].at in v.curr
    ensures LoggedAll(v, es) == if |es| == 1 then Logged(v, es[0].at, es[0].op)
                                else Logged(Logged(v, es[0].at, es[0].op), es[1].at, es[1].op)
  {
    var none := es[..0];
    assert none == [] && LoggedAll(v, none) == v;
    LoggedAllStep(v, es, 0);
    if |es| == 2 {
      LoggedAllStep(v, es, 1);
      assert es[..2] == es;
    } else {
      assert es[..1] == es;
    }
  }

  lemma LinkPrepared(c: Change)
    requires c == ChangeOf(RENAME_OVER)
    ensures AdmissibleChange(NO_NODES, c)
    ensures var w := Prepared(NO_NODES, c);
            11 in w.curr && w.curr[11] == 10 && 5 !in w.curr && 12 !in w.known && 10 !in w.ops
  {
    OneMoved(NO_NODES, c.updates);
    assert Updates(NO_NODES, c) == c.updates;
  }

  lemma LinkEntries(c: Change, es: seq<Landing>)
    requires c == ChangeOf(RENAME_OVER) && es == Entries(c, 5)
    ensures c.valid && |es| == 2 && es[0] == Landing(11, LinkChain()[0]) && es[1] == Landing(11, LinkChain()[1])
    ensures c.move.Some? && c.move.value.node == 5 && NodeOf(c) == 5
  {
  }

  lemma LinkLogged(w: View, es: seq<Landing>)
    requires 11 in w.curr && w.curr[11] == 10 && 10 !in w.ops
    requires |es| == 2 && es[0] == Landing(11, LinkChain()[0]) && es[1] == Landing(11, LinkChain()[1])
    ensures var v := LoggedAll(w, es);
            AllCurrent(w.curr, es) && v == w.(ops := v.ops) && 10 in v.ops && v.ops[10] == LinkChain()[..2]
  {
    FewLogged(w, es);
  }

  lemma LinkRenamed(c: Change)
    requires c == ChangeOf(RENAME_OVER)
    ensures AdmissibleChange(NO_NODES, c) && Performed(NO_NODES, c).Ok?
    ensures var v := Performed(NO_NODES, c).value;
            && 11 in v.curr && v.curr[11] == 10 && 12 !in v.known
            && 10 in v.ops && v.ops[10] == LinkChain()[..2]
  {
    LinkPrepared(c);
    var w := Prepared(NO_NODES, c);
    LinkEntries(c, Entries(c, 5));
    LinkLogged(w, Entries(c, 5));
  }

  lemma LinkRemoved(v: View, c: Change)
    requires 11 in v.curr && v.curr[11] == 10 && 12 !in v.known && 10 in v.ops && v.ops[10] == LinkChain()[..2]
    requires c == ChangeOf(REMOVE)
    ensures AdmissibleChange(v, c) && Performed(v, c).Ok? && OpsOn(Performed(v, c).value.ops, 10) == LinkChain()
  {
    OneMoved(v, c.updates);
    assert Updates(v, c) == c.updates;
    var w := Prepared(v, c);
    var es := Entries(c, Root(w, NodeOf(c)));
    FewLogged(w, es);
    assert LinkChain()[..2] + [REMOVE] == LinkChain();
  }

  /** The branch can be followed, and makes that chain. */
  lemma LinkBranch(ops: seq<Op>)
    requires |ops| == 2 && ops[0] == RENAME_OVER && ops[1] == REMOVE
    ensures AdmissibleRun(Changes(ops)) && Run(Changes(ops)).Ok? && ChainOf(ops, 10) == LinkChain()
  {
    var cs := Changes(ops);
    var one := cs[..|cs| - 1];
    var none := one[..|one| - 1];
    assert none == [] && Run(none) == Ok(NO_NODES) && AdmissibleRun(none);
    LinkRenamed(cs[0]);
    assert Run(one) == Performed(NO_NODES, cs[0]);
    LinkRemoved(Run(one).value, cs[1]);
  }

  /** The directory has the file and the symlink. */
  predicate HasLink(start: Start) {
    && 10 in start && "f" in start[10] && "s" in start[10]
    && start[10]["f"] == Existing(5) && start[10]["s"] == Existing(ZERO_PTR)
  }

  /** The rename fits the tree. */
  lemma LinkWorldOne(one: seq<Op>, start: Start)
    requires |one| == 1 && one[0] == RENAME_OVER && HasLink(start)
    requires Origin(Raw(Changes(one)), 11) == 10 && Origin(Raw(Changes(one)), 5) == 5
    ensures FitsAll(Checked, one, start) && "s" in Dir(WorldAfter(one, start), 10)
  {
    var none := one[..|one| - 1];
    assert |none| == 0 && FitsAll(Checked, none, start);
    var w0 := WorldAfter(none, start);
    assert 10 in w0 && w0[10] == NamesOf(start[10]);
    LinkOver(Raw(Changes(one)), w0);
  }

  /** And so does the removal after it. */
  lemma LinkWorld(ops: seq<Op>, start: Start)
    requires |ops| == 2 && ops[0] == RENAME_OVER && ops[1] == REMOVE && HasLink(start)
    ensures FitsAll(Checked, ops, start) && "s" !in Dir(WorldAfter(ops, start), 10)
  {
    var one := ops[..|ops| - 1];
    LinkTrails(ops);
    LinkWorldOne(one, start);
    LinkGone(Raw(Changes(ops)), WorldAfter(one, start));
  }

  lemma LinkGone(us: seq<BlockUpdate>, w: World)
    requires Origin(us, 12) == 10 && "s" in Dir(w, 10)
    ensures FitsTree(Checked, us, REMOVE, w) && "s" !in Dir(TreeStep(us, REMOVE, w), 10)
  {
  }

  lemma LinkOver(us: seq<BlockUpdate>, w: World)
    requires Origin(us, 11) == 10 && Origin(us, 5) == 5
    requires "f" in Dir(w, 10) && Dir(w, 10)["f"] == 5 && "s" in Dir(w, 10)
    ensures FitsTree(Checked, us, RENAME_OVER, w) && "s" in Dir(TreeStep(us, RENAME_OVER, w), 10)
  {
  }

  lemma LinkTrails(ops: seq<Op>)
    requires |ops| == 2 && ops[0] == RENAME_OVER && ops[1] == REMOVE
    ensures var one, two := Raw(Changes(ops[..1])), Raw(Changes(ops));
            Origin(one, 11) == 10 && Origin(one, 5) == 5 && Origin(two, 12) == 10
  {
    var cs := Changes(ops);
    var one := cs[..|cs| - 1];
    var none := one[..|one| - 1];
    assert none == [] && Changes(ops[..1]) == one;
    assert one[0] == ChangeOf(RENAME_OVER) && cs[1] == ChangeOf(REMOVE);
    var u1, u2 := Raw(one), Raw(cs);
    assert u1 == Raw(none) + one[0].updates;
    assert one[0].updates == [BlockUpdate(10, 11)];
    assert u1 == [BlockUpdate(10, 11)];
    assert u2 == u1 + [BlockUpdate(11, 12)];
    assert u1[..|u1| - 1] == [] && u2[..|u2| - 1] == u1;
    assert Origin(u2, 12) == Origin(u1, 11);
  }

  lemma LinkHidden(chain: seq<Op>, d: Directory)
    requires chain == LinkChain() && "f" in d && "s" in d
    ensures Possible(chain, d) && EndsRemoved(chain, "s") && Hides(chain, d, "s")
  {
    var p2 := chain[..2];
    var p1 := p2[..1];
    var none := p1[..0];
    assert none == [] && p2 == chain[..|chain| - 1] && p1 == p2[..|p2| - 1] && none == p1[..|p1| - 1];
    assert "s"[0] != "f"[0];
    assert Replay(none, d) == d && SeenCreate(none, "s").None? && Possible(none, d);
    assert Removes(p1[0], "f") && !Touches(p1[0], "s");
    assert Replay(p1, d) == d - {"f"} && SeenCreate(p1, "s").None? && Possible(p1, d);
    assert Creates(p2[1], "s") && "s" in Replay(p2, d) && Possible(p2, d) && Hides(p2, d, "s");
    assert Removes(chain[2], "s");
  }

  /** The file system lets this branch through, and it ends without s; the collapsed chain of the directory leaves
      s. */
  lemma SymlinkComesBack(start: Start)
    requires HasLink(start)
    ensures var ops := [RENAME_OVER, REMOVE];
            && AdmissibleRun(Changes(ops)) && Run(Changes(ops)).Ok? && FitsAll(Checked, ops, start)
            && "s" !in Dir(WorldAfter(ops, start), 10)
            && "s" in Replay(Collapsed(ChainOf(ops, 10)), StartDir(start, 10))
  {
    var ops := [RENAME_OVER, REMOVE];
    var d := StartDir(start, 10);
    LinkBranch(ops);
    LinkWorld(ops, start);
    LinkHidden(ChainOf(ops, 10), d);
    PossibleLeftover(ChainOf(ops, 10), d, "s");
    ComesBack(ChainOf(ops, 10), d, "s");
  }
}

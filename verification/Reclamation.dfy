/** Quota reclamation: deleting the blocks that old revisions of a folder left unreferenced
    (libkbfs/folder_block_manager.go). */
module Reclamation {
  import opened Ops
  import opened Collections
  import opened RevisionRanges

  const PAGE: int := 10
  const POINTERS_PER_GC: nat := 100
  const REVISIONS_PER_QR: int := 100

  datatype Metadata = Metadata(mtime: int, ops: seq<Op>)

  /** Revision r of the folder is history[r - 1]; revision 0 stands for none. */
  type History = seq<Metadata>

  // ---------- Pointers that a revision leaves unreferenced ----------

  function Replaced(updates: seq<BlockUpdate>): seq<BlockPointer> {
    if updates == [] then []
    else
      var u := updates[|updates| - 1];
      Replaced(updates[..|updates| - 1]) + if u.ref != u.unref then [u.unref] else []
  }

  function Unreferenced(ops: seq<Op>): seq<BlockPointer> {
    if ops == [] then [] else Unreferenced(ops[..|ops| - 1]) + UnreferencedBy(ops[|ops| - 1])
  }

  /** An update that replaces p. */
  predicate Replaces(u: BlockUpdate, p: BlockPointer) {
    u.unref == p && u.ref != p
  }

  /** An operation, not of a reclamation, that leaves p unreferenced. */
  predicate Drops(op: Op, p: BlockPointer) {
    !op.GCOp? && (p in op.common.unrefs || ReplacesAny(AllUpdates(op), p))
  }

  predicate ReplacesAny(updates: seq<BlockUpdate>, p: BlockPointer) {
    exists u :: u in updates && Replaces(u, p)
  }

  /** The updates that replace p. */
  function ReplacesAt(updates: seq<BlockUpdate>, p: BlockPointer): set<nat> {
    set i: nat | i < |updates| && Replaces(updates[i], p)
  }

  /** A pointer is listed once for every update that replaces it. */
  lemma {:induction false} ReplacedCounts(updates: seq<BlockUpdate>, p: BlockPointer)
    ensures multiset(Replaced(updates))[p] == |ReplacesAt(updates, p)|
  {
    if updates != [] {
      var k := |updates| - 1;
      var before := updates[..k];
      ReplacedCounts(before, p);
      ReplacesMore(updates, p);
      CountsAdd(Replaced(before), Replaced(updates)[|Replaced(before)|..], p);
      assert Replaced(updates) == Replaced(before) + Replaced(updates)[|Replaced(before)|..];
    }
  }

  lemma ReplacesMore(updates: seq<BlockUpdate>, p: BlockPointer)
    requires updates != []
    ensures var k := |updates| - 1;
            |ReplacesAt(updates, p)| == |ReplacesAt(updates[..k], p)| + if Replaces(updates[k], p) then 1 else 0
  {
    var k := |updates| - 1;
    assert ReplacesAt(updates, p) == ReplacesAt(updates[..k], p) + if Replaces(updates[k], p) then {k} else {};
  }

  lemma CountsAdd(a: seq<BlockPointer>, b: seq<BlockPointer>, p: BlockPointer)
    ensures multiset(a + b)[p] == multiset(a)[p] + multiset(b)[p]
  {
  }

  lemma {:induction false} ReplacedIs(updates: seq<BlockUpdate>, p: BlockPointer)
    ensures p in Replaced(updates) <==> ReplacesAny(updates, p)
  {
    if updates != [] {
      var before, last := updates[..|updates| - 1], updates[|updates| - 1];
      ReplacedIs(before, p);
      assert updates == before + [last];
      assert p in Replaced(updates) <==> p in Replaced(before) || Replaces(last, p);
    }
  }

  /** What one operation adds to the list. */
  function UnreferencedBy(op: Op): seq<BlockPointer> {
    if op.GCOp? then [] else op.common.unrefs + Replaced(AllUpdates(op))
  }

  lemma UnreferencedByIs(op: Op, p: BlockPointer)
    ensures p in UnreferencedBy(op) <==> Drops(op, p)
  {
    ReplacedIs(AllUpdates(op), p);
  }

  /** The pointers listed for a revision are exactly those that one of its operations leaves unreferenced. */
  lemma {:induction false} UnreferencedIs(ops: seq<Op>, p: BlockPointer)
    ensures p in Unreferenced(ops) <==> EverDrops(ops, p)
  {
    if ops != [] {
      var before, op := ops[..|ops| - 1], ops[|ops| - 1];
      UnreferencedIs(before, p);
      UnreferencedByIs(op, p);
      LastOrBefore(ops, before, op, p);
      assert p in Unreferenced(before) + UnreferencedBy(op) <==> p in Unreferenced(before) || p in UnreferencedBy(op);
    }
  }

  ghost predicate EverDrops(ops: seq<Op>, p: BlockPointer) {
    exists op :: op in ops && Drops(op, p)
  }

  lemma LastOrBefore(ops: seq<Op>, before: seq<Op>, last: Op, p: BlockPointer)
    requires ops == before + [last]
    ensures EverDrops(ops, p) <==> EverDrops(before, p) || Drops(last, p)
  {
    assert last in ops && forall op :: op in ops <==> op in before || op == last;
  }

  /** As often as all its operations together do. */
  function DropsTimes(op: Op, p: BlockPointer): nat {
    if op.GCOp? then 0 else multiset(op.common.unrefs)[p] + |ReplacesAt(AllUpdates(op), p)|
  }

  function DropsAllTimes(ops: seq<Op>, p: BlockPointer): nat {
    if ops == [] then 0 else DropsAllTimes(ops[..|ops| - 1], p) + DropsTimes(ops[|ops| - 1], p)
  }

  lemma CountsBy(op: Op, p: BlockPointer)
    ensures multiset(UnreferencedBy(op))[p] == DropsTimes(op, p)
  {
    if !op.GCOp? {
      CountsAdd(op.common.unrefs, Replaced(AllUpdates(op)), p);
      ReplacedCounts(AllUpdates(op), p);
    }
  }

  lemma {:induction false} UnreferencedCounts(ops: seq<Op>, p: BlockPointer)
    ensures multiset(Unreferenced(ops))[p] == DropsAllTimes(ops, p)
  {
    if ops != [] {
      var before, op := ops[..|ops| - 1], ops[|ops| - 1];
      UnreferencedCounts(before, p);
      CountsAdd(Unreferenced(before), UnreferencedBy(op), p);
      CountsBy(op, p);
    }
  }

  /** The list of each revision. */
  function Lists(h: History): (lists: seq<seq<BlockPointer>>)
    ensures |lists| == |h|
  {
    if |h| == 0 then [] else Lists(h[..|h| - 1]) + [Unreferenced(h[|h| - 1].ops)]
  }

  lemma {:induction false} ListsAt(h: History, r: nat)
    requires 0 < r <= |h|
    ensures Lists(h)[r - 1] == Unreferenced(h[r - 1].ops)
  {
    if r < |h| {
      ListsAt(h[..|h| - 1], r);
    }
  }

  /** All those of revisions earliest + 1 to latest, newest revision first. */
  function Collect(h: History, latest: nat, earliest: nat): seq<BlockPointer>
    requires latest <= |h|
  {
    Range(Lists(h), latest, earliest)
  }

  /** Later revisions do not matter. */
  lemma CollectPrefix(h: History, more: History, latest: nat, earliest: nat)
    requires latest <= |h|
    ensures Collect(h + more, latest, earliest) == Collect(h, latest, earliest)
  {
    var lists, others := Lists(h + more), Lists(h);
    forall i | 0 <= i < latest
      ensures lists[i] == others[i]
    {
      ListsAt(h, i + 1);
      ListsAt(h + more, i + 1);
    }
    RangeSame(lists, others, latest, earliest);
  }

  /** The list is that of the revision. */
  ghost predicate ListAt(h: History, lists: seq<seq<BlockPointer>>, i: nat) {
    i < |h| == |lists| && lists[i] == Unreferenced(h[i].ops)
  }

  ghost predicate ListsMatch(h: History, lists: seq<seq<BlockPointer>>) {
    |h| == |lists| && forall i :: 0 <= i < |h| ==> ListAt(h, lists, i)
  }

  lemma OwnLists(h: History)
    ensures ListsMatch(h, Lists(h))
  {
    forall i | 0 <= i < |h|
      ensures ListAt(h, Lists(h), i)
    {
      ListsAt(h, i + 1);
    }
  }

  // ---------- The range to reclaim ----------

  /** Each revision that is old enough, and 0 for the others. */
  function OldRevisions(h: History, limit: int): (values: seq<nat>)
    ensures |values| == |h|
  {
    if h == [] then []
    else OldRevisions(h[..|h| - 1], limit) + [if h[|h| - 1].mtime < limit then |h| else 0]
  }

  lemma {:induction false} OldRevisionsAt(h: History, limit: int, r: nat)
    requires 0 < r <= |h|
    ensures OldRevisions(h, limit)[r - 1] == if h[r - 1].mtime < limit then r else 0
  {
    if r < |h| {
      OldRevisionsAt(h[..|h| - 1], limit, r);
    }
  }

  /** The most recent revision that is old enough, or 0. */
  function MostRecentOld(h: History, limit: int): (o: nat)
    ensures o <= |h|
  {
    MostRecentOldIs(h, limit, |h|);
    FindLast(OldRevisions(h, limit), |h|)
  }

  lemma {:induction false} MostRecentOldIs(h: History, limit: int, r: nat)
    requires r <= |h|
    ensures var o := FindLast(OldRevisions(h, limit), r);
            && o <= r && (o > 0 ==> h[o - 1].mtime < limit)
            && (forall i :: o <= i < r ==> h[i].mtime >= limit)
  {
    if r > 0 {
      OldRevisionsAt(h, limit, r);
      MostRecentOldIs(h, limit, r - 1);
    }
  }

  /** What the last gc operation of a revision says it covers, or 0. */
  function Covered(ops: seq<Op>): nat {
    if ops == [] then 0
    else if ops[|ops| - 1].GCOp? then ops[|ops| - 1].latestRev
    else Covered(ops[..|ops| - 1])
  }

  lemma {:induction false} LastCovers(ops: seq<Op>, i: nat)
    requires i < |ops| && ops[i].GCOp? && forall j :: i < j < |ops| ==> !ops[j].GCOp?
    ensures Covered(ops) == ops[i].latestRev
  {
    if i < |ops| - 1 {
      LastCovers(ops[..|ops| - 1], i);
    }
  }

  lemma {:induction false} NoneCovers(ops: seq<Op>)
    requires forall j :: 0 <= j < |ops| ==> !ops[j].GCOp?
    ensures Covered(ops) == 0
  {
    if ops != [] {
      NoneCovers(ops[..|ops| - 1]);
    }
  }

  function CoveredRevisions(h: History): (values: seq<nat>)
    ensures |values| == |h|
  {
    if h == [] then [] else CoveredRevisions(h[..|h| - 1]) + [Covered(h[|h| - 1].ops)]
  }

  lemma {:induction false} CoveredRevisionsAt(h: History, r: nat)
    requires 0 < r <= |h|
    ensures CoveredRevisions(h)[r - 1] == Covered(h[r - 1].ops)
  {
    if r < |h| {
      CoveredRevisionsAt(h[..|h| - 1], r);
    }
  }

  /** The last revision that was reclaimed. */
  function LastGC(h: History): nat {
    FindLast(CoveredRevisions(h), |h|)
  }

  /** The two values are those of the revision. */
  ghost predicate ValuesAt(h: History, limit: int, olds: seq<nat>, covers: seq<nat>, i: nat) {
    && i < |h| == |olds| == |covers|
    && olds[i] == (if h[i].mtime < limit then i + 1 else 0) && covers[i] == Covered(h[i].ops)
  }

  ghost predicate ValuesMatch(h: History, limit: int, olds: seq<nat>, covers: seq<nat>) {
    |h| == |olds| == |covers| && forall i :: 0 <= i < |h| ==> ValuesAt(h, limit, olds, covers, i)
  }

  lemma OwnValues(h: History, limit: int)
    ensures ValuesMatch(h, limit, OldRevisions(h, limit), CoveredRevisions(h))
  {
    forall i | 0 <= i < |h|
      ensures ValuesAt(h, limit, OldRevisions(h, limit), CoveredRevisions(h), i)
    {
      OldRevisionsAt(h, limit, i + 1);
      CoveredRevisionsAt(h, i + 1);
    }
  }

  // ---------- A round ----------

  datatype Decision = Skip | Reclaim(ptrs: seq<BlockPointer>, latest: nat)

  datatype Round = Round(decision: Decision, oldEnough: nat, complete: bool)

  /** What a round does, given the unreferenced pointers of each revision, the most recent revision that is old enough
      and the last one reclaimed. */
  function DecideOn(lists: seq<seq<BlockPointer>>, oldEnough: nat, gc: nat): Round
    requires oldEnough <= |lists|
  {
    if oldEnough == 0 || oldEnough <= gc then Round(Skip, oldEnough, true)
    else
      var shortened := oldEnough - gc > REVISIONS_PER_QR;
      var latest := if shortened then gc + REVISIONS_PER_QR else oldEnough;
      var cut := CutOff(lists, latest, gc, POINTERS_PER_GC);
      var ptrs := Range(lists, cut, gc);
      if ptrs == [] && !shortened then Round(Skip, latest, true)
      else Round(Reclaim(ptrs, cut), latest, cut == latest)
  }

  /** It reclaims a range that starts right after the last one, of at most so many revisions, and of at most so many
      pointers but for those of its newest revision. */
  lemma DecideRange(lists: seq<seq<BlockPointer>>, oldEnough: nat, gc: nat)
    requires oldEnough <= |lists| && DecideOn(lists, oldEnough, gc).decision.Reclaim?
    ensures var d := DecideOn(lists, oldEnough, gc).decision;
            && gc < d.latest <= oldEnough && d.latest <= gc + REVISIONS_PER_QR
            && d.ptrs == Range(lists, d.latest, gc)
            && |Range(lists, d.latest - 1, gc)| <= POINTERS_PER_GC
  {
    CutOffIsEarliest(lists, if oldEnough - gc > REVISIONS_PER_QR then gc + REVISIONS_PER_QR else oldEnough, gc,
                     POINTERS_PER_GC);
  }

  /** It stops only for too many pointers, after so many revisions, or where they are too new. */
  lemma DecideStops(lists: seq<seq<BlockPointer>>, oldEnough: nat, gc: nat)
    requires oldEnough <= |lists| && DecideOn(lists, oldEnough, gc).decision.Reclaim?
    ensures var d := DecideOn(lists, oldEnough, gc).decision;
            |d.ptrs| > POINTERS_PER_GC || d.latest == oldEnough || d.latest == gc + REVISIONS_PER_QR
  {
    var latest: nat := if oldEnough - gc > REVISIONS_PER_QR then gc + REVISIONS_PER_QR else oldEnough;
    CutOffIsEarliest(lists, latest, gc, POINTERS_PER_GC);
  }

  /** What a round does with the folder at this history, when metadata older than limit is old enough. */
  function Decide(h: History, limit: int): Round {
    DecideOn(Lists(h), MostRecentOld(h, limit), LastGC(h))
  }

  function GCMetadata(mtime: int, latest: nat, zeroRefs: seq<BlockPointer>): Metadata {
    Metadata(mtime, [GCOp(Common([], zeroRefs, []), latest)])
  }

  /** A round is complete exactly if it does not stop before the revision that it takes as old enough, and then it hands
      over all pointers that the revisions up to that one leave. */
  lemma CompleteMeans(h: History, limit: int)
    ensures var r, gc := Decide(h, limit), LastGC(h);
            && (r.complete <==> (r.decision.Reclaim? ==> r.decision.latest == r.oldEnough))
            && r.oldEnough <= |h|
            && (r.complete ==> Collect(h, r.oldEnough, gc) == if r.decision.Reclaim? then r.decision.ptrs else [])
  {
    var o, gc := MostRecentOld(h, limit), LastGC(h);
    if o > gc {
      CutOffIsEarliest(Lists(h), if o - gc > REVISIONS_PER_QR then gc + REVISIONS_PER_QR else o, gc, POINTERS_PER_GC);
      if Decide(h, limit).decision.Skip? {
        RangeEmpty(Lists(h), o, gc);
      }
    }
  }

  // ---------- Runs of writes and rounds ----------

  /** A round whose block references could be deleted, with the revisions written while it ran and the unreferenced
      blocks its gc operation records; or a write of a revision. */
  datatype Event =
    | Write(md: Metadata)
    | Reclamation(limit: int, meanwhile: seq<Metadata>, mtime: int, zeroRefs: seq<BlockPointer>)

  /** deleted lists the pointers handed to deletion, latest first. */
  datatype Folder = Folder(h: History, deleted: seq<BlockPointer>)

  function Happen(f: Folder, e: Event): Folder {
    match e
    case Write(md) => f.(h := f.h + [md])
    case Reclamation(limit, meanwhile, mtime, zeroRefs) =>
      match Decide(f.h, limit).decision
      case Skip => f.(h := f.h + meanwhile)
      case Reclaim(ptrs, latest) =>
        Folder(f.h + meanwhile + [GCMetadata(mtime, latest, zeroRefs)], ptrs + f.deleted)
  }

  /** A round loses no revision that was written meanwhile.  If it reclaims, it adds one with a single operation, which
      says how far it got and which blocks have no references left, and leaves nothing unreferenced itself. */
  lemma RoundRecords(f: Folder, e: Event)
    requires e.Reclamation?
    ensures var f', d := Happen(f, e), Decide(f.h, e.limit).decision;
            if d.Skip? then f' == Folder(f.h + e.meanwhile, f.deleted)
            else
              && |f'.h| == |f.h| + |e.meanwhile| + 1 && f.h + e.meanwhile == f'.h[..|f'.h| - 1]
              && var ops := f'.h[|f'.h| - 1].ops;
                 && |ops| == 1 && ops[0].common.unrefs == e.zeroRefs && Covered(ops) == d.latest
                 && forall p :: p !in Unreferenced(ops)
  {
    var f', d := Happen(f, e), Decide(f.h, e.limit).decision;
    if d.Reclaim? {
      var ops := f'.h[|f'.h| - 1].ops;
      LastCovers(ops, 0);
      forall p
        ensures p !in Unreferenced(ops)
      {
        UnreferencedIs(ops, p);
      }
    }
  }

  predicate NoGC(mds: seq<Metadata>) {
    forall i :: 0 <= i < |mds| ==> Covered(mds[i].ops) == 0
  }

  /** Only rounds write gc operations. */
  predicate Ordinary(e: Event) {
    match e
    case Write(md) => NoGC([md])
    case Reclamation(_, meanwhile, _, _) => NoGC(meanwhile)
  }

  function After(events: seq<Event>): Folder {
    if events == [] then Folder([], []) else Happen(After(events[..|events| - 1]), events[|events| - 1])
  }

  lemma {:induction false} NoGCKeepsLast(h: History, more: seq<Metadata>)
    requires NoGC(more)
    ensures LastGC(h + more) == LastGC(h)
  {
    if more == [] {
      assert h + more == h;
    } else {
      var k := |more| - 1;
      NoGCKeepsLast(h, more[..k]);
      LastGCOfMore(h + more[..k], more[k]);
      assert h + more[..k] + [more[k]] == h + more;
    }
  }

  lemma LastGCOfMore(h: History, md: Metadata)
    ensures LastGC(h + [md]) == if Covered(md.ops) != 0 then Covered(md.ops) else LastGC(h)
  {
    assert (h + [md])[..|h + [md]| - 1] == h;
    FindLastPrefix(CoveredRevisions(h), [Covered(md.ops)], |h|);
  }

  /** The pointers deleted so far are exactly those unreferenced in the revisions up to the last one reclaimed, each
      revision taken once. */
  ghost predicate Tiled(f: Folder) {
    var gc := LastGC(f.h);
    gc <= |f.h| && f.deleted == Collect(f.h, gc, 0)
  }

  lemma WriteTiles(f: Folder, more: seq<Metadata>)
    requires Tiled(f) && NoGC(more)
    ensures Tiled(f.(h := f.h + more))
  {
    NoGCKeepsLast(f.h, more);
    CollectPrefix(f.h, more, LastGC(f.h), 0);
  }

  lemma ReclaimTiles(f: Folder, latest: nat, md: Metadata)
    requires Tiled(f) && LastGC(f.h) < latest <= |f.h| && Covered(md.ops) == latest
    ensures Tiled(Folder(f.h + [md], Collect(f.h, latest, LastGC(f.h)) + f.deleted))
  {
    LastGCOfMore(f.h, md);
    RangeSplit(Lists(f.h), latest, LastGC(f.h), 0);
    CollectPrefix(f.h, [md], latest, 0);
  }

  lemma EventTiles(f: Folder, e: Event)
    requires Tiled(f) && Ordinary(e)
    ensures Tiled(Happen(f, e))
  {
    match e
    case Write(md) => WriteTiles(f, [md]);
    case Reclamation(limit, meanwhile, mtime, zeroRefs) =>
      WriteTiles(f, meanwhile);
      var d := Decide(f.h, limit).decision;
      if d.Reclaim? {
        DecideRange(Lists(f.h), MostRecentOld(f.h, limit), LastGC(f.h));
        NoGCKeepsLast(f.h, meanwhile);
        CollectPrefix(f.h, meanwhile, d.latest, LastGC(f.h));
        ReclaimTiles(f.(h := f.h + meanwhile), d.latest, GCMetadata(mtime, d.latest, zeroRefs));
      }
  }

  /** So it is after any run of writes and rounds. */
  lemma {:induction false} RunTiles(events: seq<Event>)
    requires forall i :: 0 <= i < |events| ==> Ordinary(events[i])
    ensures Tiled(After(events))
  {
    if events != [] {
      RunTiles(events[..|events| - 1]);
      EventTiles(After(events[..|events| - 1]), events[|events| - 1]);
    }
  }

  /** Revision r has an operation that leaves p unreferenced. */
  ghost predicate DropsIn(h: History, r: nat, p: BlockPointer) {
    0 < r <= |h| && EverDrops(h[r - 1].ops, p)
  }

  /** An operation of one of the revisions after earliest, up to latest, drops p. */
  ghost predicate DropsBetween(h: History, latest: nat, earliest: nat, p: BlockPointer) {
    exists r :: earliest < r <= latest && DropsIn(h, r, p)
  }

  lemma DropsBetweenStep(h: History, latest: nat, earliest: nat, p: BlockPointer)
    requires earliest < latest <= |h|
    ensures DropsBetween(h, latest, earliest, p) <==> DropsIn(h, latest, p) || DropsBetween(h, latest - 1, earliest, p)
  {
  }

  lemma CollectStep(h: History, latest: nat, earliest: nat, p: BlockPointer)
    requires earliest < latest <= |h|
    ensures p in Collect(h, latest, earliest) <==> DropsIn(h, latest, p) || p in Collect(h, latest - 1, earliest)
  {
    ListsAt(h, latest);
    UnreferencedIs(h[latest - 1].ops, p);
    var list, rest := Lists(h)[latest - 1], Range(Lists(h), latest - 1, earliest);
    assert p in list + rest <==> p in list || p in rest;
  }

  lemma {:induction false} CollectIs(h: History, latest: nat, earliest: nat, p: BlockPointer)
    requires latest <= |h|
    ensures p in Collect(h, latest, earliest) <==> DropsBetween(h, latest, earliest, p)
  {
    if latest > earliest {
      CollectIs(h, latest - 1, earliest, p);
      CollectStep(h, latest, earliest, p);
      DropsBetweenStep(h, latest, earliest, p);
    }
  }

  /** So in every run exactly those pointers are deleted that an operation of a reclaimed revision left unreferenced. */
  lemma RunDeletes(events: seq<Event>, p: BlockPointer)
    requires forall i :: 0 <= i < |events| ==> Ordinary(events[i])
    ensures var f := After(events);
            p in f.deleted <==> DropsBetween(f.h, LastGC(f.h), 0, p)
  {
    RunTiles(events);
    CollectIs(After(events).h, LastGC(After(events).h), 0, p);
  }

  /** Writing a file: the block it had is deleted with the revision, and the block it got is not. */
  lemma WriteDropsOld(from: BlockPointer, to: BlockPointer)
    requires from != to
    ensures Unreferenced([SyncOp(NOTHING, BlockUpdate(from, to))]) == [from]
  {
    var ops := [SyncOp(NOTHING, BlockUpdate(from, to))];
    assert ops[..|ops| - 1] == [];
    var us := AllUpdates(ops[0]);
    assert us == [BlockUpdate(from, to)] && us[..|us| - 1] == [];
    assert Replaced(us) == [from];
  }

  // ---------- When a round is needed ----------

  datatype LastRound = LastRound(headRev: nat, oldEnough: nat, complete: bool)

  predicate Necessary(last: LastRound, h: History, limit: int) {
    |h| > 0
    && (|h| != last.headRev || !last.complete || (last.headRev > last.oldEnough && h[|h| - 1].mtime < limit))
  }

  /** What a successful round remembers. */
  function Remember(h: History, limit: int): LastRound {
    var r := Decide(h, limit); LastRound(|h|, r.oldEnough, r.complete)
  }

  /** An incomplete round is followed by another at any time. */
  lemma IncompleteGoesOn(last: LastRound, h: History, limit: int)
    requires !last.complete
    ensures Necessary(last, h, limit) <==> |h| > 0
  {
  }

  /** Revision r left pointers unreferenced. */
  predicate Leaves(h: History, r: nat) {
    0 < r <= |h| && Unreferenced(h[r - 1].ops) != []
  }

  /** There is work at the limit: among the revisions that are old enough and not reclaimed yet, there are too many for
      one round, or one that left pointers unreferenced. */
  predicate WorkAt(h: History, limit: int) {
    var o, gc := MostRecentOld(h, limit), LastGC(h);
    o > gc && (o - gc > REVISIONS_PER_QR || exists r :: gc < r <= o && Leaves(h, r))
  }

  lemma LeavesAll(h: History)
    ensures forall r: nat :: Leaves(h, r) <==> NonEmptyAt(Lists(h), r)
  {
    forall r: nat
      ensures Leaves(h, r) <==> NonEmptyAt(Lists(h), r)
    {
      if 0 < r <= |h| {
        ListsAt(h, r);
      }
    }
  }

  /** A round reclaims exactly if there is work. */
  lemma ReclaimsWork(h: History, limit: int)
    ensures Decide(h, limit).decision.Reclaim? <==> WorkAt(h, limit)
  {
    var o, gc := MostRecentOld(h, limit), LastGC(h);
    if o > gc {
      LeavesAll(h);
      RangeEmpty(Lists(h), o, gc);
      CutOffIsEarliest(Lists(h), if o - gc > REVISIONS_PER_QR then gc + REVISIONS_PER_QR else o, gc, POINTERS_PER_GC);
    }
  }

  lemma OldStaysOld(h: History, limit: int, limit': int)
    requires limit <= limit'
    ensures MostRecentOld(h, limit) <= MostRecentOld(h, limit')
    ensures MostRecentOld(h, limit) == |h| ==> MostRecentOld(h, limit') == |h|
  {
    MostRecentOldIs(h, limit, |h|);
    MostRecentOldIs(h, limit', |h|);
  }

  /** After a round and what followed it, and at any later time limit, work that there is is overlooked exactly if the
      folder has no new revision and its head is not old enough: older revisions may have become old enough since, but
      only the head's age is looked at.  So none is overlooked at the limit of the round, or once the head is old. */
  lemma WorkIsNecessary(f: Folder, e: Event, more: History, limit': int)
    requires e.Reclamation? && limit' >= e.limit
    ensures var h' := Happen(f, e).h + more;
            && (Decide(h', limit').decision.Reclaim? && !Necessary(Remember(f.h, e.limit), h', limit')
                <==> |h'| == |f.h| > 0 && f.h[|f.h| - 1].mtime >= limit' && WorkAt(f.h, limit'))
            && (limit' == e.limit && Decide(h', limit').decision.Reclaim?
                ==> Necessary(Remember(f.h, e.limit), h', limit'))
  {
    var h' := Happen(f, e).h + more;
    assert |h'| == |f.h| ==> h' == f.h;
    ReclaimsWork(h', limit');
    ReclaimsWork(f.h, e.limit);
    OldStaysOld(f.h, e.limit, limit');
    MostRecentOldIs(f.h, limit', |f.h|);
  }

  /** Three revisions of times 1, 5 and 100, the second unreferencing block 8: a round at limit 2 finds nothing; at
      limit 10 there is work, but the head is too new for a round to be found necessary. */
  lemma OverlookedWork()
    ensures var h := [Metadata(1, []), Metadata(5, [RekeyOp(Common([], [8], []))]), Metadata(100, [])];
            && Happen(Folder(h, []), Reclamation(2, [], 0, [])).h == h
            && Decide(h, 10).decision.Reclaim? && !Necessary(Remember(h, 2), h, 10)
  {
    var h := [Metadata(1, []), Metadata(5, [RekeyOp(Common([], [8], []))]), Metadata(100, [])];
    NoneCovered(h);
    SecondUnreferences(h[1].ops);
    LaterWork(h);
  }

  lemma LaterWork(h: History)
    requires |h| == 3 && h[0].mtime == 1 && h[1].mtime == 5 && h[2].mtime == 100
    requires LastGC(h) == 0 && !Leaves(h, 1) && Leaves(h, 2)
    ensures Happen(Folder(h, []), Reclamation(2, [], 0, [])).h == h
    ensures Decide(h, 10).decision.Reclaim? && !Necessary(Remember(h, 2), h, 10)
  {
    OldAmong(h, 2, 1);
    WorkUpTo(h, 2, 1);
    OldAmong(h, 10, 2);
    WorkUpTo(h, 10, 2);
    WorkWaits(Folder(h, []), Reclamation(2, [], 0, []), 10);
  }

  lemma WorkUpTo(h: History, limit: int, o: nat)
    requires MostRecentOld(h, limit) == o && LastGC(h) == 0 && 0 < o <= REVISIONS_PER_QR && !Leaves(h, 1)
    ensures o == 1 ==> !WorkAt(h, limit)
    ensures o == 2 && Leaves(h, 2) ==> WorkAt(h, limit)
  {
  }

  /** A round that finds no work remembers the head; the work there is at a later limit then waits until it is old. */
  lemma WorkWaits(f: Folder, e: Event, limit': int)
    requires e.Reclamation? && e.meanwhile == [] && e.limit <= limit' && !WorkAt(f.h, e.limit) && WorkAt(f.h, limit')
    requires |f.h| > 0 && f.h[|f.h| - 1].mtime >= limit'
    ensures Happen(f, e).h == f.h
    ensures Decide(f.h, limit').decision.Reclaim? && !Necessary(Remember(f.h, e.limit), f.h, limit')
  {
    ReclaimsWork(f.h, e.limit);
    var none: History := e.meanwhile;
    assert f.h + none == f.h;
    WorkIsNecessary(f, e, none, limit');
  }

  lemma OldAmong(h: History, limit: int, o: nat)
    requires o <= |h| && (o > 0 ==> h[o - 1].mtime < limit) && forall i :: o <= i < |h| ==> h[i].mtime >= limit
    ensures MostRecentOld(h, limit) == o
  {
    MostRecentOldIs(h, limit, |h|);
  }

  lemma NoneCovered(h: History)
    requires |h| == 3 && h[0].ops == [] && |h[1].ops| == 1 && h[1].ops[0].RekeyOp? && h[2].ops == []
    ensures LastGC(h) == 0
  {
    CoveredRevisionsAt(h, 1);
    CoveredRevisionsAt(h, 2);
    CoveredRevisionsAt(h, 3);
    assert |h[1].ops[..0]| == 0;
    assert Covered(h[1].ops) == 0;
    var values := CoveredRevisions(h);
    assert FindLast(values, 1) == FindLast(values, 2) == 0;
  }

  lemma SecondUnreferences(ops: seq<Op>)
    requires ops == [RekeyOp(Common([], [8], []))]
    ensures 8 in Unreferenced(ops)
  {
    assert |ops[..0]| == 0;
    assert AllUpdates(ops[0]) == [];
  }

  // ---------- The folder block manager ----------

  method GatherReplaced(updates: seq<BlockUpdate>) returns (ptrs: seq<BlockPointer>)
    ensures ptrs == Replaced(updates)
  {
    ptrs := [];
    var i := 0;
    while i < |updates|
      invariant i <= |updates| && ptrs == Replaced(updates[..i])
    {
      assert updates[..i + 1][..i] == updates[..i];
      if updates[i].ref != updates[i].unref {
        ptrs := ptrs + [updates[i].unref];
      }
      i := i + 1;
    }
    assert updates[..|updates|] == updates;
  }

  method GatherUnreferenced(ops: seq<Op>) returns (ptrs: seq<BlockPointer>)
    ensures ptrs == Unreferenced(ops)
  {
    ptrs := [];
    var i := 0;
    while i < |ops|
      invariant i <= |ops| && ptrs == Unreferenced(ops[..i])
    {
      assert ops[..i + 1][..i] == ops[..i];
      if !ops[i].GCOp? {
        var replaced := GatherReplaced(AllUpdates(ops[i]));
        ptrs := ptrs + (ops[i].common.unrefs + replaced);
      }
      i := i + 1;
    }
    assert ops[..|ops|] == ops;
  }

  method FindCovered(ops: seq<Op>) returns (latestRev: nat)
    ensures latestRev == Covered(ops)
  {
    latestRev := 0;
    var j := |ops|;
    assert ops[..j] == ops;
    while j > 0
      invariant 0 <= j <= |ops| && Covered(ops) == Covered(ops[..j])
    {
      j := j - 1;
      assert ops[..j + 1][..j] == ops[..j];
      if ops[j].GCOp? {
        return ops[j].latestRev;
      }
    }
  }

  class FolderBlockManager {
    var h: History
    var deleted: seq<BlockPointer>
    var last: LastRound

    ghost function Abstract(): Folder
      reads this
    {
      Folder(h, deleted)
    }

    /** The metadata of revisions start to end, of those there are. */
    method GetMDRange(start: int, end: int) returns (mds: seq<Metadata>)
      requires end <= |h|
      ensures mds == if start < 1 || end < start then [] else h[start - 1..end]
    {
      if start < 1 || end < start {
        return [];
      }
      return h[start - 1..end];
    }

    /** Walk backward, a page at a time, until both revisions are found. */
    method GetMostRecentOldEnoughAndGCRevisions(limit: int) returns (oldEnough: nat, lastGC: nat)
      ensures oldEnough == MostRecentOld(h, limit) && lastGC == LastGC(h)
    {
      OwnValues(h, limit);
      oldEnough, lastGC := SearchBack(limit, OldRevisions(h, limit), CoveredRevisions(h));
    }

    method SearchBack(limit: int, ghost olds: seq<nat>, ghost covers: seq<nat>) returns (oldEnough: nat, lastGC: nat)
      requires ValuesMatch(h, limit, olds, covers)
      ensures oldEnough == FindLast(olds, |olds|) && lastGC == FindLast(covers, |covers|)
    {
      oldEnough, lastGC := 0, 0;
      var head: int := |h|;
      while true
        invariant 0 <= head <= |h| && Searched(olds, head, oldEnough) && Searched(covers, head, lastGC)
        decreases head
      {
        var start := if head - PAGE + 1 < 1 then 1 else head - PAGE + 1;
        var mds := GetMDRange(start, head);
        oldEnough, lastGC := ScanPage(mds, limit, start, oldEnough, lastGC, olds, covers);
        if oldEnough != 0 && lastGC != 0 {
          return;
        }
        if |mds| > 0 {
          head := start - 1;
        }
        if |mds| < PAGE || head < 1 {
          break;
        }
      }
    }

    /** Look through one page of revisions from start on, newest first. */
    method ScanPage(mds: seq<Metadata>, limit: int, start: int, oldEnough0: nat, lastGC0: nat, ghost olds: seq<nat>,
                    ghost covers: seq<nat>)
      returns (oldEnough: nat, lastGC: nat)
      requires ValuesMatch(h, limit, olds, covers)
      requires 1 <= start <= start - 1 + |mds| + 1 <= |h| + 1 && mds == h[start - 1..start - 1 + |mds|]
      requires Searched(olds, start - 1 + |mds|, oldEnough0) && Searched(covers, start - 1 + |mds|, lastGC0)
      ensures Searched(olds, start - 1, oldEnough) && Searched(covers, start - 1, lastGC)
    {
      oldEnough, lastGC := oldEnough0, lastGC0;
      var i := |mds|;
      while i > 0
        invariant 0 <= i <= |mds|
        invariant Searched(olds, start - 1 + i, oldEnough)
        invariant Searched(covers, start - 1 + i, lastGC)
      {
        i := i - 1;
        assert ValuesAt(h, limit, olds, covers, start - 1 + i);
        if oldEnough == 0 && mds[i].mtime < limit {
          oldEnough := start + i;
        }
        if lastGC == 0 {
          lastGC := FindCovered(mds[i].ops);
        }
        if oldEnough != 0 && lastGC != 0 {
          return;
        }
      }
    }

    /** Walk backward from latest to just after earliest, a page at a time, and cut the list at the threshold. */
    method GetUnreferencedBlocks(latest: nat, earliest: nat)
      returns (ptrs: seq<BlockPointer>, lastRev: nat, complete: bool)
      requires latest <= |h|
      ensures if latest <= earliest then ptrs == [] && lastRev == 0 && complete
              else
                && lastRev == CutOff(Lists(h), latest, earliest, POINTERS_PER_GC)
                && ptrs == Collect(h, lastRev, earliest)
                && complete == (lastRev == latest)
    {
      if latest <= earliest {
        return [], 0, true;
      }
      var starts;
      ghost var lists := Lists(h);
      OwnLists(h);
      ptrs, starts := WalkBack(latest, earliest, lists);
      lastRev, complete := latest, true;
      if |ptrs| > POINTERS_PER_GC {
        lastRev := Shorten(latest, earliest, |ptrs|, starts);
        if lastRev < latest {
          RangeSplit(Lists(h), latest, lastRev, earliest);
          ptrs := ptrs[starts[lastRev]..];
          complete := false;
        }
      } else {
        ShortList(Lists(h), latest, earliest, POINTERS_PER_GC);
      }
    }

    /** Also note, for each revision, where its pointers start in the list. */
    method WalkBack(latest: nat, earliest: nat, ghost lists: seq<seq<BlockPointer>>)
      returns (ptrs: seq<BlockPointer>, starts: map<nat, nat>)
      requires earliest < latest <= |h| && ListsMatch(h, lists)
      ensures Gathered(lists, latest, earliest, ptrs, starts)
    {
      var head: int := latest;
      ptrs, starts := [], map[];
      while true
        invariant earliest <= head <= latest && Gathered(lists, latest, head, ptrs, starts)
        decreases head
      {
        var start := if head - PAGE + 1 < 1 then 1 else head - PAGE + 1;
        var numNew;
        ptrs, starts, numNew := GatherPage(latest, earliest, start, head, ptrs, starts, lists);
        if start <= earliest {
          return;
        }
        if numNew > 0 {
          head := start - 1;
        }
        if numNew < PAGE || head < 1 {
          break;
        }
      }
    }

    method GatherOne(ghost r: nat, md: Metadata, ghost lists: seq<seq<BlockPointer>>) returns (more: seq<BlockPointer>)
      requires 0 < r <= |h| && md == h[r - 1] && ListsMatch(h, lists)
      ensures more == lists[r - 1]
    {
      more := GatherUnreferenced(md.ops);
      assert ListAt(h, lists, r - 1);
    }

    /** Take in one page of revisions from start on, newest first, down to just after earliest. */
    method GatherPage(latest: nat, earliest: nat, start: int, head: int,
                      ptrs0: seq<BlockPointer>, starts0: map<nat, nat>, ghost lists: seq<seq<BlockPointer>>)
      returns (ptrs: seq<BlockPointer>, starts: map<nat, nat>, numNew: nat)
      requires 1 <= start && start - 1 <= head <= latest <= |h| && ListsMatch(h, lists)
      requires earliest <= head && Gathered(lists, latest, head, ptrs0, starts0)
      ensures Gathered(lists, latest, if start <= earliest then earliest else start - 1, ptrs, starts)
      ensures numNew == head - start + 1
    {
      ptrs, starts := ptrs0, starts0;
      var mds := GetMDRange(start, head);
      numNew := |mds|;
      var i := |mds|;
      while i > 0
        invariant 0 <= i <= |mds| && earliest <= start - 1 + i
        invariant Gathered(lists, latest, start - 1 + i, ptrs, starts)
      {
        if start - 1 + i <= earliest {
          return;
        }
        GatheredStep(lists, latest, start - 1 + i, ptrs, starts);
        starts := starts[start - 1 + i := |ptrs|];
        i := i - 1;
        var more := GatherOne(start + i, mds[i], lists);
        ptrs := ptrs + more;
      }
    }

    /** The least revision whose pointers start before the threshold, whatever the order in which they are looked
        at. */
    method Shorten(latest: nat, earliest: nat, count: nat, starts: map<nat, nat>) returns (lastRev: nat)
      requires earliest < latest <= |h| && count == |Collect(h, latest, earliest)| && count > POINTERS_PER_GC
      requires StartsOf(Lists(h), latest, earliest, starts)
      ensures lastRev == CutOff(Lists(h), latest, earliest, POINTERS_PER_GC) && lastRev in starts
    {
      var threshStart := count - POINTERS_PER_GC;
      lastRev := latest;
      var todo := starts.Keys;
      while todo != {}
        invariant earliest < lastRev <= latest && todo <= starts.Keys
        invariant lastRev == latest || starts[lastRev] < threshStart
        invariant forall r :: r in starts && r !in todo && starts[r] < threshStart ==> lastRev <= r
        decreases todo
      {
        var r := AnyOf(todo);
        if starts[r] < threshStart && r < lastRev {
          lastRev := r;
        }
        todo := todo - {r};
      }
      LeastIsCutOff(Lists(h), latest, earliest, POINTERS_PER_GC, starts, lastRev);
    }

    method IsQRNecessary(limit: int) returns (r: bool)
      ensures r == Necessary(last, h, limit)
    {
      if |h| == 0 {
        return false;
      }
      if |h| != last.headRev || !last.complete {
        return true;
      }
      return last.headRev > last.oldEnough && h[|h| - 1].mtime < limit;
    }

    /** A round in which every step outside succeeds; the other parameters are what happens meanwhile. */
    method DoReclamation(limit: int, meanwhile: seq<Metadata>, mtime: int, zeroRefs: seq<BlockPointer>)
      modifies this
      ensures if Necessary(old(last), old(h), limit) then
                && Abstract() == Happen(old(Abstract()), Reclamation(limit, meanwhile, mtime, zeroRefs))
                && last == Remember(old(h), limit)
              else
                h == old(h) + meanwhile && deleted == old(deleted) && last == old(last)
    {
      var needed := IsQRNecessary(limit);
      if !needed {
        h := h + meanwhile;
        return;
      }
      var headRev := |h|;
      var oldEnough, lastGC := GetMostRecentOldEnoughAndGCRevisions(limit);
      if oldEnough == 0 || oldEnough <= lastGC {
        last := LastRound(headRev, oldEnough, true);
        h := h + meanwhile;
        return;
      }
      var shortened := false;
      if oldEnough - lastGC > REVISIONS_PER_QR {
        oldEnough := lastGC + REVISIONS_PER_QR;
        shortened := true;
      }
      var ptrs, latestRev, complete := GetUnreferencedBlocks(oldEnough, lastGC);
      if |ptrs| == 0 && !shortened {
        last := LastRound(headRev, oldEnough, true);
        h := h + meanwhile;
        return;
      }
      deleted := ptrs + deleted;
      h := h + meanwhile + [GCMetadata(mtime, latestRev, zeroRefs)];
      last := LastRound(headRev, oldEnough, complete);
    }
  }
}

/** Runs of a dirty file through syncs and retries up to the end of its sync (libkbfs/dirty_file.go). */
module DirtyFiles {
  import opened Arithmetic
  import opened Collections
  import opened Ops
  import opened DirtyBlocks

  // ---------- Runs ----------

  ghost function After(l: Limits, start: Sheet, steps: seq<Step>): Sheet {
    if steps == [] then start
    else Perform(l, After(l, start, steps[..|steps| - 1]), steps[|steps| - 1])
  }

  /** Each block is started only when it is not in the sync, and finished once per sync. */
  ghost predicate Counting(l: Limits, start: Sheet, steps: seq<Step>) {
    steps == []
    || (Counting(l, start, steps[..|steps| - 1])
        && !Miscounts(After(l, start, steps[..|steps| - 1]), steps[|steps| - 1]))
  }

  /** Since counters c, the file's syncing blocks hold exactly the syncing bytes added, and its synced blocks
      exactly the difference between total and unsynced bytes added. */
  ghost predicate Accounted(c: Counters, s: Sheet) {
    Sound(s.file) && OtherSyncing(s) == c.syncing && OtherSynced(s) == c.total - c.unsynced
  }

  lemma StepAccounted(l: Limits, c: Counters, s: Sheet, step: Step)
    requires Accounted(c, s) && !Miscounts(s, step)
    ensures Accounted(c, Perform(l, s, step))
  {
    StepCounts(l, s, step);
  }

  lemma NewAccounted(s: Sheet)
    requires NewFile(s.file)
    ensures Accounted(s.c, s)
  {
  }

  /** That is so in every such run, retries included. */
  lemma {:induction false} RunAccounted(l: Limits, start: Sheet, steps: seq<Step>)
    requires NewFile(start.file) && Counting(l, start, steps)
    ensures Accounted(start.c, After(l, start, steps))
  {
    if steps == [] {
      NewAccounted(start);
    } else {
      var p, step := steps[..|steps| - 1], steps[|steps| - 1];
      RunAccounted(l, start, p);
      StepAccounted(l, start.c, After(l, start, p), step);
    }
  }

  /** What a step adds to the total: reported and assimilated bytes, less the bytes of orphans that a retry drops. */
  ghost function Charge(s: Sheet, step: Step): int {
    match step
    case Report(n) => n
    case Assimilate => s.file.deferred
    case Retry => -Total(s.file.blocks, InOrphans)
    case _ => 0
  }

  ghost function Charges(l: Limits, start: Sheet, steps: seq<Step>): int {
    if steps == [] then 0
    else
      var p := steps[..|steps| - 1];
      Charges(l, start, p) + Charge(After(l, start, p), steps[|steps| - 1])
  }

  lemma StepCharges(l: Limits, s: Sheet, step: Step)
    ensures Perform(l, s, step).c.total == s.c.total + Charge(s, step)
    ensures !step.Retry? && !step.Assimilate? ==>
              var f, f' := s.file, Perform(l, s, step).file;
              f'.notYet + f'.totalSync == f.notYet + f.totalSync + Charge(s, step)
  {
  }

  lemma {:induction false} RunCharges(l: Limits, start: Sheet, steps: seq<Step>)
    ensures After(l, start, steps).c.total == start.c.total + Charges(l, start, steps)
  {
    if steps != [] {
      var k := |steps| - 1;
      RunCharges(l, start, steps[..k]);
      StepCharges(l, After(l, start, steps[..k]), steps[k]);
    }
  }

  /** No retry and no assimilated bytes. */
  predicate Plain(steps: seq<Step>) {
    forall i :: 0 <= i < |steps| ==> !steps[i].Retry? && !steps[i].Assimilate?
  }

  lemma {:induction false} PlainCharges(l: Limits, start: Sheet, steps: seq<Step>)
    requires NewFile(start.file) && Plain(steps)
    ensures var f := After(l, start, steps).file; Charges(l, start, steps) == f.notYet + f.totalSync
  {
    if steps != [] {
      var k := |steps| - 1;
      PlainCharges(l, start, steps[..k]);
      StepCharges(l, After(l, start, steps[..k]), steps[k]);
    }
  }

  // ---------- The end of the sync ----------

  predicate InSync(blocks: BlockStates, p: BlockPointer) {
    p in blocks && !blocks[p].orphaned && blocks[p].sync == Syncing
  }

  /** Only the top block of the file may still be syncing. */
  ghost predicate CanFinishSync(s: Sheet, tail: BlockPointer) {
    forall p :: InSync(s.file.blocks, p) ==> p == tail
  }

  function TailDone(s: Sheet, tail: BlockPointer): Sheet {
    if InSync(s.file.blocks, tail) then BlockDone(s, tail) else s
  }

  /** Settle the total of the sync, and forget bytes that will never be synced. */
  function Settled(l: Limits, s: Sheet): Sheet {
    var f := s.file;
    Sheet(f.(totalSync := 0, deferred := 0, notYet := Min(f.notYet, 0)),
          AddUnsynced(Finished(l, s.c, f.totalSync), -Max(f.notYet, 0), false))
  }

  ghost predicate OrphansSynced(s: Sheet) {
    forall p :: p in s.file.blocks && s.file.blocks[p].orphaned ==> s.file.blocks[p].sync != Syncing
  }

  lemma {:induction false} TotalNonNegative<K>(blocks: map<K, BlockState>, g: Group)
    requires forall k :: k in blocks ==> blocks[k].syncSize >= 0
    ensures Total(blocks, g) >= 0
  {
    if blocks != map[] {
      var k :| k in blocks;
      TotalSplit(blocks, g, k);
      TotalNonNegative(blocks - {k}, g);
    }
  }

  lemma TailCounts(l: Limits, s: Sheet, tail: BlockPointer)
    requires Sound(s.file) && CanFinishSync(s, tail) && OrphansSynced(s)
    ensures var t := TailDone(s, tail);
            && Sound(t.file) && OtherSyncing(t) == OtherSyncing(s) && OtherSynced(t) == OtherSynced(s)
            && Total(t.file.blocks, InSyncing) == 0 && t.file.totalSync >= 0
            && t.c.total == s.c.total && t.file.notYet == s.file.notYet && t.file.totalSync == s.file.totalSync
  {
    var t := TailDone(s, tail);
    DoneCounts(s, tail);
    assert Sound(t.file);
    forall p | p in t.file.blocks
      ensures t.file.blocks[p].sync != Syncing && t.file.blocks[p].syncSize >= 0
    {
      assert InSync(s.file.blocks, p) ==> p == tail;
    }
    TotalZero(t.file.blocks, InSyncing);
    TotalNonNegative(t.file.blocks, InSynced);
  }

  /** From s, a file that has charged that many bytes since counters c finishes its sync with the syncing bytes and the
      difference between total and unsynced bytes back where they started.  The total is too, exactly when what was
      charged is what was started since the last retry and what is still to be started. */
  ghost predicate FinishesRight(l: Limits, c: Counters, s: Sheet, charged: int, tail: BlockPointer) {
    var c' := Settled(l, TailDone(s, tail)).c;
    && c'.syncing == c.syncing && c'.total - c'.unsynced == c.total - c.unsynced
    && (c'.total == c.total && c'.unsynced == c.unsynced <==> charged == s.file.totalSync + Max(s.file.notYet, 0))
  }

  lemma FinishFrom(l: Limits, c: Counters, s: Sheet, charged: int, tail: BlockPointer)
    requires Accounted(c, s) && CanFinishSync(s, tail) && OrphansSynced(s) && s.c.total == c.total + charged
    ensures FinishesRight(l, c, s, charged, tail)
  {
    TailCounts(l, s, tail);
  }

  /** That is so at the end of every such run in which all orphans are synced. */
  lemma FinishReturns(l: Limits, start: Sheet, steps: seq<Step>, tail: BlockPointer)
    requires NewFile(start.file) && Counting(l, start, steps)
    requires CanFinishSync(After(l, start, steps), tail) && OrphansSynced(After(l, start, steps))
    ensures FinishesRight(l, start.c, After(l, start, steps), Charges(l, start, steps), tail)
  {
    RunAccounted(l, start, steps);
    RunCharges(l, start, steps);
    FinishFrom(l, start.c, After(l, start, steps), Charges(l, start, steps), tail);
  }

  /** Without retries and assimilated bytes, that is when the reported bytes cover the bytes started. */
  lemma PlainFinish(l: Limits, start: Sheet, steps: seq<Step>, tail: BlockPointer)
    requires NewFile(start.file) && Counting(l, start, steps) && Plain(steps)
    requires CanFinishSync(After(l, start, steps), tail) && OrphansSynced(After(l, start, steps))
    ensures var s := After(l, start, steps);
            var c' := Settled(l, TailDone(s, tail)).c;
            c'.(buffer := 0) == start.c.(buffer := 0) <==> s.file.notYet >= 0
  {
    FinishReturns(l, start, steps, tail);
    PlainCharges(l, start, steps);
  }

  /** Syncing ten bytes that were never reported leaves ten bytes too few. */
  lemma UnreportedBytes(l: Limits, start: Sheet, p: BlockPointer)
    requires NewFile(start.file)
    ensures var s := After(l, start, [Dirty(p), Start(p, 10), Done(p)]);
            Settled(l, TailDone(s, p)).c.total == start.c.total - 10
  {
    AfterMore(l, start, [], Dirty(p));
    AfterMore(l, start, [Dirty(p)], Start(p, 10));
    AfterMore(l, start, [Dirty(p), Start(p, 10)], Done(p));
    assert [] + [Dirty(p)] == [Dirty(p)] && [Dirty(p)] + [Start(p, 10)] == [Dirty(p), Start(p, 10)];
    assert [Dirty(p), Start(p, 10)] + [Done(p)] == [Dirty(p), Start(p, 10), Done(p)];
  }

  lemma AfterMore(l: Limits, start: Sheet, steps: seq<Step>, step: Step)
    ensures After(l, start, steps + [step]) == Perform(l, After(l, start, steps), step)
  {
    assert (steps + [step])[..|steps + [step]| - 1] == steps;
  }

  // ---------- After a retry ----------

  /** Block p has to be synced again: it is part of the sync and not an orphan. */
  predicate Retried(blocks: BlockStates, p: BlockPointer) {
    p in blocks && !blocks[p].orphaned && blocks[p].sync != NotSyncing
  }

  /** After a retry exactly those blocks can be started that were part of the sync, or dirty, and not orphaned; and none
      is in a sync. */
  lemma RetryMakesDirty(l: Limits, s: Sheet, p: BlockPointer)
    requires p in s.file.blocks
    ensures var s' := Perform(l, s, Retry);
            && (CanStart(s', p) <==> !s.file.blocks[p].orphaned
                                     && (s.file.blocks[p].sync != NotSyncing || s.file.blocks[p].copied))
            && StateOf(s'.file.blocks, p).sync == NotSyncing
            && (p in s'.file.blocks <==> !s.file.blocks[p].orphaned)
  {
  }

  /** Starting, or finishing, the first n blocks of a list with the sizes they had. */
  ghost function StartAll(l: Limits, s: Sheet, ps: seq<BlockPointer>, was: BlockStates, n: nat): Sheet
    requires n <= |ps| && forall p :: p in ps ==> p in was && was[p].syncSize >= 0
  {
    if n == 0 then s else Perform(l, StartAll(l, s, ps, was, n - 1), Start(ps[n - 1], was[ps[n - 1]].syncSize))
  }

  ghost function FinishAll(l: Limits, s: Sheet, ps: seq<BlockPointer>, n: nat): Sheet
    requires n <= |ps|
  {
    if n == 0 then s else Perform(l, FinishAll(l, s, ps, n - 1), Done(ps[n - 1]))
  }

  /** The list has each block once that has to be synced again, and no other. */
  ghost predicate ListsRetried(ps: seq<BlockPointer>, was: BlockStates) {
    && (forall p :: p in ps <==> Retried(was, p))
    && (forall i, j :: 0 <= i < j < |ps| ==> ps[i] != ps[j])
  }

  function SumSizes(ps: seq<BlockPointer>, was: BlockStates, n: nat): int
    requires n <= |ps| && forall p :: p in ps ==> p in was
  {
    if n == 0 then 0 else SumSizes(ps, was, n - 1) + was[ps[n - 1]].syncSize
  }

  lemma {:induction false} SumIsTotal(ps: seq<BlockPointer>, was: BlockStates, n: nat, rest: BlockStates)
    requires n <= |ps| && (forall p :: p in ps ==> p in was)
    requires forall i, j :: 0 <= i < j < |ps| ==> ps[i] != ps[j]
    requires forall p :: p in rest <==> p in was && p !in ps[n..]
    requires forall p :: p in rest ==> rest[p] == was[p]
    requires forall p :: p in was ==> (p in ps <==> Retried(was, p))
    ensures Total(rest, InRetry) == SumSizes(ps, was, n)
  {
    if n == 0 {
      forall p | p in rest
        ensures Weight(rest[p], InRetry) == 0
      {
        assert p !in ps[0..] && ps[0..] == ps;
      }
      TotalZero(rest, InRetry);
    } else {
      var p := ps[n - 1];
      assert p !in ps[n..];
      assert forall q :: q in ps[n - 1..] <==> q == p || q in ps[n..];
      TotalSplit(rest, InRetry, p);
      SumIsTotal(ps, was, n - 1, rest - {p});
    }
  }

  lemma {:induction false} SplitTotal<K>(blocks: map<K, BlockState>)
    requires forall k :: k in blocks && blocks[k].sync == NotSyncing ==> blocks[k].syncSize == 0
    ensures Total(blocks, InSyncing) + Total(blocks, InSynced) == Total(blocks, InRetry) + Total(blocks, InOrphans)
  {
    if blocks != map[] {
      var k :| k in blocks;
      TotalSplit(blocks, InSyncing, k);
      TotalSplit(blocks, InSynced, k);
      TotalSplit(blocks, InRetry, k);
      TotalSplit(blocks, InOrphans, k);
      SplitTotal(blocks - {k});
    }
  }

  /** Block p in the course of the new sync: those up to n are in the given state with their old sizes, the others as
      the retry left them. */
  predicate HalfDone(ps: seq<BlockPointer>, was: BlockStates, blocks: BlockStates, n: nat, sync: SyncState,
                     others: BlockStates, p: BlockPointer)
    requires n <= |ps|
  {
    if p in ps[..n] then p in was && p in blocks && blocks[p] == BlockState(sync, false, was[p].syncSize, false)
    else (p in blocks <==> p in others) && (p in blocks ==> blocks[p] == others[p])
  }

  lemma InPrefix(ps: seq<BlockPointer>, n: nat, p: BlockPointer)
    requires 0 < n <= |ps|
    ensures p in ps[..n] <==> p in ps[..n - 1] || p == ps[n - 1]
  {
    assert ps[..n] == ps[..n - 1] + [ps[n - 1]];
  }

  lemma {:induction false} Restarted(l: Limits, s: Sheet, ps: seq<BlockPointer>, n: nat)
    requires Sound(s.file) && ListsRetried(ps, s.file.blocks) && n <= |ps|
    ensures var was, t := s.file.blocks, StartAll(l, Reset(l, s), ps, s.file.blocks, n);
            && t.file.totalSync == SumSizes(ps, was, n)
            && forall p :: HalfDone(ps, was, t.file.blocks, n, Syncing, ResetBlocks(was), p)
  {
    if n > 0 {
      Restarted(l, s, ps, n - 1);
      var was, p := s.file.blocks, ps[n - 1];
      var t, t' := StartAll(l, Reset(l, s), ps, was, n - 1), StartAll(l, Reset(l, s), ps, was, n);
      assert p !in ps[..n - 1] && Retried(was, p);
      assert HalfDone(ps, was, t.file.blocks, n - 1, Syncing, ResetBlocks(was), p);
      assert CanStart(t, p);
      forall q
        ensures HalfDone(ps, was, t'.file.blocks, n, Syncing, ResetBlocks(was), q)
      {
        assert HalfDone(ps, was, t.file.blocks, n - 1, Syncing, ResetBlocks(was), q);
        InPrefix(ps, n, q);
      }
    }
  }

  lemma {:induction false} Refinished(l: Limits, s: Sheet, ps: seq<BlockPointer>, was: BlockStates, n: nat)
    requires n <= |ps| && (forall p :: p in ps <==> Retried(was, p))
    requires forall i, j :: 0 <= i < j < |ps| ==> ps[i] != ps[j]
    requires forall p :: p in ps ==> p in was && p in s.file.blocks
                                     && s.file.blocks[p] == BlockState(Syncing, false, was[p].syncSize, false)
    ensures var t := FinishAll(l, s, ps, n);
            && t.file.totalSync == s.file.totalSync
            && forall p :: HalfDone(ps, was, t.file.blocks, n, Synced, s.file.blocks, p)
  {
    if n > 0 {
      Refinished(l, s, ps, was, n - 1);
      var p := ps[n - 1];
      var t, t' := FinishAll(l, s, ps, n - 1), FinishAll(l, s, ps, n);
      assert p in ps && p !in ps[..n - 1];
      assert HalfDone(ps, was, t.file.blocks, n - 1, Synced, s.file.blocks, p);
      forall q
        ensures HalfDone(ps, was, t'.file.blocks, n, Synced, s.file.blocks, q)
      {
        assert HalfDone(ps, was, t.file.blocks, n - 1, Synced, s.file.blocks, q);
        InPrefix(ps, n, q);
      }
    }
  }

  /** After a retry, starting and finishing again every block that has to be, in any order and with the sizes they had,
      works for all of them: they are all synced, and the sync is as large as it was without the orphans. */
  lemma RetrySyncsAgain(l: Limits, s: Sheet, ps: seq<BlockPointer>)
    requires Sound(s.file) && ListsRetried(ps, s.file.blocks)
    ensures var was := s.file.blocks;
            var t := FinishAll(l, StartAll(l, Perform(l, s, Retry), ps, was, |ps|), ps, |ps|);
            && t.file.totalSync == s.file.totalSync - Total(was, InOrphans)
            && (forall p :: p in ps ==> p in t.file.blocks && t.file.blocks[p].sync == Synced
                                        && t.file.blocks[p].syncSize == was[p].syncSize)
  {
    var was := s.file.blocks;
    Restarted(l, s, ps, |ps|);
    var t := StartAll(l, Reset(l, s), ps, was, |ps|);
    assert ps[..|ps|] == ps;
    forall p | p in ps
      ensures p in t.file.blocks && t.file.blocks[p] == BlockState(Syncing, false, was[p].syncSize, false)
    {
      assert HalfDone(ps, was, t.file.blocks, |ps|, Syncing, ResetBlocks(was), p);
    }
    Refinished(l, t, ps, was, |ps|);
    SumIsTotal(ps, was, |ps|, was);
    forall p | p in was
      ensures was[p].sync == NotSyncing ==> was[p].syncSize == 0
    {
    }
    SplitTotal(was);
    forall p | p in ps
      ensures var u := FinishAll(l, t, ps, |ps|);
              p in u.file.blocks && u.file.blocks[p] == BlockState(Synced, false, was[p].syncSize, false)
    {
      assert HalfDone(ps, was, FinishAll(l, t, ps, |ps|).file.blocks, |ps|, Synced, t.file.blocks, p);
    }
  }

  // ---------- The dirty file ----------

  /** Block p is reset, or still to do. */
  predicate HalfReset(blocks: BlockStates, was: BlockStates, todo: BlockStates, p: BlockPointer) {
    if p in todo then p in blocks && p in was && blocks[p] == todo[p] == was[p]
    else if p in was && !was[p].orphaned then p in blocks && blocks[p] == ResetBlock(was[p])
    else p !in blocks
  }

  class DirtyFile {
    const cache: DirtyBlockCache
    const tail: BlockPointer
    var blocks: BlockStates
    var notYet: int
    var totalSync: int
    var deferred: int

    ghost function Abstract(): Sheet
      reads this, cache
    {
      Sheet(DirtyState(blocks, notYet, totalSync, deferred), cache.Abstract())
    }

    ghost predicate Valid()
      reads this, cache
    {
      cache.Valid() && forall p :: p in blocks ==> blocks[p].syncSize >= 0
    }

    constructor (cache: DirtyBlockCache, tail: BlockPointer)
      requires cache.Valid()
      ensures this.cache == cache && this.tail == tail && Valid()
      ensures NewFile(Abstract().file) && Abstract().c == cache.Abstract()
    {
      this.cache, this.tail := cache, tail;
      blocks, notYet, totalSync, deferred := map[], 0, 0, 0;
    }

    method UpdateNotYetSyncingBytes(n: int)
      requires Valid()
      modifies this, cache
      ensures Valid() && Abstract() == Perform(cache.limits, old(Abstract()), Report(n))
    {
      notYet := notYet + n;
      cache.UpdateUnsyncedBytes(n, false);
    }

    method SetBlockDirty(p: BlockPointer) returns (needsCaching: bool, isSyncing: bool)
      requires Valid()
      modifies this`blocks
      ensures Valid() && Abstract() == Perform(cache.limits, old(Abstract()), Dirty(p))
      ensures needsCaching == !StateOf(old(blocks), p).copied
      ensures isSyncing == (StateOf(old(blocks), p).sync != NotSyncing)
    {
      var state := StateOf(blocks, p);
      needsCaching, isSyncing := !state.copied, state.sync != NotSyncing;
      blocks := blocks[p := state.(copied := true)];
    }

    method SetBlockNotDirty(p: BlockPointer)
      requires Valid()
      modifies this`blocks
      ensures Valid() && Abstract() == Perform(cache.limits, old(Abstract()), NotDirty(p))
    {
      blocks := blocks[p := StateOf(blocks, p).(copied := false)];
    }

    /** The size is that of the block in the dirty block cache. */
    method SetBlockSyncing(p: BlockPointer, size: nat) returns (ok: bool)
      requires Valid()
      modifies this, cache
      ensures Valid() && Abstract() == Perform(cache.limits, old(Abstract()), Start(p, size))
      ensures ok == CanStart(old(Abstract()), p)
    {
      var state := StateOf(blocks, p);
      if !state.copied {
        return false;
      }
      totalSync := totalSync + size;
      notYet := notYet - size;
      blocks := blocks[p := state.(copied := false, sync := Syncing, syncSize := size)];
      cache.UpdateSyncingBytes(size);
      return true;
    }

    method SetBlockSynced(p: BlockPointer) returns (ok: bool)
      requires Valid()
      modifies this`blocks, cache
      ensures Valid() && Abstract() == Perform(cache.limits, old(Abstract()), Done(p))
      ensures ok == CanFinish(old(Abstract()), p)
    {
      if p !in blocks || (blocks[p].copied && blocks[p].sync == NotSyncing) {
        return true;
      }
      var state := blocks[p];
      if state.sync != Syncing && !state.orphaned {
        return false;
      }
      cache.BlockSyncFinished(state.syncSize);
      blocks := blocks[p := state.(sync := Synced)];
      return true;
    }

    method SetBlockOrphaned(p: BlockPointer, orphaned: bool)
      requires Valid()
      modifies this`blocks
      ensures Valid() && Abstract() == Perform(cache.limits, old(Abstract()), Orphan(p, orphaned))
    {
      if p in blocks {
        blocks := blocks[p := blocks[p].(orphaned := orphaned)];
      }
    }

    method AddDeferredNewBytes(n: int)
      requires Valid()
      modifies this`deferred
      ensures Valid() && Abstract() == Perform(cache.limits, old(Abstract()), Defer(n))
    {
      deferred := deferred + n;
    }

    method AssimilateDeferredNewBytes()
      requires Valid()
      modifies this`deferred, cache
      ensures Valid() && Abstract() == Perform(cache.limits, old(Abstract()), Assimilate)
    {
      if deferred == 0 {
        return;
      }
      cache.UpdateUnsyncedBytes(deferred, false);
      deferred := 0;
    }

    /** Take one block out of the sync. */
    method ResetOne(p: BlockPointer)
      requires Valid() && p in blocks
      modifies this`blocks, cache
      ensures Valid()
      ensures blocks == if old(blocks)[p].orphaned then old(blocks) - {p}
                        else old(blocks)[p := ResetBlock(old(blocks)[p])]
      ensures cache.syncing == old(cache.syncing) - Weight(old(blocks)[p], InSyncing)
      ensures cache.total == old(cache.total) - Weight(old(blocks)[p], InOrphans)
      ensures cache.total - cache.unsynced == old(cache.total - cache.unsynced) - Weight(old(blocks)[p], InSynced)
      ensures cache.buffer
              == Min(old(cache.buffer) + Weight(old(blocks)[p], InLargeOrphans(cache.limits.min)), cache.limits.max)
    {
      var state := blocks[p];
      if state.orphaned {
        if state.sync == Syncing {
          cache.UpdateUnsyncedBytes(-state.syncSize, true);
        } else if state.sync == Synced {
          cache.SyncFinished(state.syncSize);
        }
        blocks := blocks - {p};
        return;
      }
      if state.sync == Synced {
        cache.BlockSyncFinished(-state.syncSize);
      } else if state.sync == Syncing {
        cache.UpdateSyncingBytes(-state.syncSize);
      }
      blocks := blocks[p := ResetBlock(state)];
    }

    method ResetSyncingBlocksToDirty()
      requires Valid()
      modifies this, cache
      ensures Valid() && Abstract() == Perform(cache.limits, old(Abstract()), Retry)
    {
      var todo := blocks;
      ghost var large := InLargeOrphans(cache.limits.min);
      while todo != map[]
        invariant Valid()
        invariant notYet == old(notYet) && totalSync == old(totalSync) && deferred == old(deferred)
        invariant forall p :: HalfReset(blocks, old(blocks), todo, p)
        invariant cache.syncing == old(cache.syncing) - Total(old(blocks), InSyncing) + Total(todo, InSyncing)
        invariant cache.total == old(cache.total) - Total(old(blocks), InOrphans) + Total(todo, InOrphans)
        invariant cache.total - cache.unsynced
                  == old(cache.total - cache.unsynced) - Total(old(blocks), InSynced) + Total(todo, InSynced)
        invariant cache.buffer
                  == Min(old(cache.buffer) + Total(old(blocks), large) - Total(todo, large), cache.limits.max)
        decreases todo.Keys
      {
        var p := AnyOf(todo.Keys);
        TotalSplit(todo, InSyncing, p);
        TotalSplit(todo, InSynced, p);
        TotalSplit(todo, InOrphans, p);
        TotalSplit(todo, large, p);
        ghost var before := blocks;
        assert HalfReset(before, old(blocks), todo, p);
        ResetOne(p);
        forall q
          ensures HalfReset(blocks, old(blocks), todo - {p}, q)
        {
          assert HalfReset(before, old(blocks), todo, q);
        }
        todo := todo - {p};
      }
      ghost var was := old(blocks);
      forall p
        ensures p in blocks <==> p in ResetBlocks(was)
        ensures p in blocks ==> blocks[p] == ResetBlocks(was)[p]
      {
        assert HalfReset(blocks, was, todo, p);
      }
      SameMap(blocks, ResetBlocks(was));
      totalSync := 0;
    }

    /** The blocks are looked at in any order.  A second block that is still syncing ends the call at once. */
    method FinishSync() returns (ok: bool)
      requires Valid()
      modifies this, cache
      ensures Valid() && (ok <==> CanFinishSync(old(Abstract()), tail))
      ensures ok ==> Abstract() == Settled(cache.limits, TailDone(old(Abstract()), tail))
      ensures !ok ==> Abstract() == old(Abstract()) || Abstract() == TailDone(old(Abstract()), tail)
    {
      var found := false;
      var todo := blocks;
      while todo != map[]
        invariant Valid()
        invariant forall p {:trigger todo[p]} :: p in todo ==> p in old(blocks) && todo[p] == old(blocks)[p]
        invariant forall p :: InSync(old(blocks), p) && p !in todo ==> p == tail
        invariant found <==> InSync(old(blocks), tail) && tail !in todo
        invariant Abstract() == if found then TailDone(old(Abstract()), tail) else old(Abstract())
        decreases todo.Keys
      {
        var p := AnyOf(todo.Keys);
        if InSync(todo, p) {
          assert InSync(old(blocks), p);
          if found || p != tail {
            return false;
          }
          found := true;
          var done := SetBlockSynced(p);
        }
        todo := todo - {p};
      }
      cache.SyncFinished(totalSync);
      totalSync, deferred := 0, 0;
      if notYet > 0 {
        cache.UpdateUnsyncedBytes(-notYet, false);
        notYet := 0;
      }
      return true;
    }
  }
}

/** What a run of steps makes of one block, of deferred bytes and of the sync buffer (libkbfs/dirty_file.go,
    libkbfs/dirty_bcache.go). */
module DirtyRuns {
  import opened Ops
  import opened Outcomes
  import opened Arithmetic
  import opened DirtyBlocks
  import opened DirtyFiles

  // ---------- One block ----------

  /** A block by itself: not known to the file, or in a state. */
  type Life = Option<BlockState>

  function LifeIn(blocks: BlockStates, p: BlockPointer): Life {
    if p in blocks then Some(blocks[p]) else None
  }

  /** A block that is not known is made dirty or clean from nothing. */
  function Marked(b: Life, copied: bool): Life {
    if b.Some? then Some(b.value.(copied := copied)) else Some(BlockState(NotSyncing, copied, 0, false))
  }

  /** A dirty block starts a sync, and is clean from then on. */
  function Begun(b: Life, size: nat): Life {
    if b.Some? && b.value.copied then Some(BlockState(Syncing, false, size, b.value.orphaned)) else b
  }

  /** A syncing block ends its sync; so does an orphan, unless it was made dirty and never started. */
  function Ended(b: Life): Life {
    if b.Some? && (b.value.sync == Syncing
                   || (b.value.orphaned && (b.value.sync == Synced || !b.value.copied)))
    then Some(b.value.(sync := Synced)) else b
  }

  /** An orphan is forgotten; any other block that was started is dirty again. */
  function Undone(b: Life): Life {
    if b.None? || b.value.orphaned then None
    else if b.value.sync != NotSyncing then Some(BlockState(NotSyncing, true, 0, false))
    else b
  }

  function Live(b: Life, p: BlockPointer, step: Step): Life {
    match step
    case Dirty(q) => if q == p then Marked(b, true) else b
    case NotDirty(q) => if q == p then Marked(b, false) else b
    case Start(q, size) => if q == p then Begun(b, size) else b
    case Done(q) => if q == p then Ended(b) else b
    case Orphan(q, orphaned) => if q == p && b.Some? then Some(b.value.(orphaned := orphaned)) else b
    case Retry => Undone(b)
    case _ => b
  }

  function LiveAll(b: Life, p: BlockPointer, steps: seq<Step>): Life {
    if steps == [] then b else Live(LiveAll(b, p, steps[..|steps| - 1]), p, steps[|steps| - 1])
  }

  lemma StepLives(l: Limits, s: Sheet, step: Step, p: BlockPointer)
    ensures LifeIn(Perform(l, s, step).file.blocks, p) == Live(LifeIn(s.file.blocks, p), p, step)
  {
  }

  /** The state of a block after any run is what the steps that name it and the retries make of it: no block's fate
      depends on another block or on the counters. */
  lemma {:induction false} RunLives(l: Limits, start: Sheet, steps: seq<Step>, p: BlockPointer)
    ensures LifeIn(After(l, start, steps).file.blocks, p) == LiveAll(LifeIn(start.file.blocks, p), p, steps)
  {
    if steps != [] {
      var before := steps[..|steps| - 1];
      RunLives(l, start, before, p);
      StepLives(l, After(l, start, before), steps[|steps| - 1], p);
    }
  }

  // ---------- Deferred bytes ----------

  /** The bytes that a run defers, and those that it charges when it assimilates. */
  function Deferred(steps: seq<Step>): int {
    if steps == [] then 0
    else Deferred(steps[..|steps| - 1]) + if steps[|steps| - 1].Defer? then steps[|steps| - 1].n else 0
  }

  ghost function Assimilated(l: Limits, start: Sheet, steps: seq<Step>): int {
    if steps == [] then 0
    else
      var p, step := steps[..|steps| - 1], steps[|steps| - 1];
      Assimilated(l, start, p) + if step.Assimilate? then Charge(After(l, start, p), step) else 0
  }

  /** Every deferred byte is charged once, or still deferred. */
  lemma {:induction false} DeferredConserved(l: Limits, start: Sheet, steps: seq<Step>)
    ensures Assimilated(l, start, steps) + After(l, start, steps).file.deferred
            == start.file.deferred + Deferred(steps)
  {
    if steps != [] {
      DeferredConserved(l, start, steps[..|steps| - 1]);
    }
  }

  // ---------- The sync buffer ----------

  /** A finished sync, or a synced orphan given up, of that size makes the buffer grow. */
  predicate Grows(l: Limits, size: int) {
    size > 0 && size >= l.min
  }

  ghost predicate LargeOrphan(l: Limits, blocks: BlockStates, p: BlockPointer) {
    p in blocks && blocks[p].orphaned && blocks[p].sync == Synced && Grows(l, blocks[p].syncSize)
  }

  lemma {:induction false} TotalAtLeast<K>(blocks: map<K, BlockState>, g: Group, k: K)
    requires k in blocks && forall j :: j in blocks ==> blocks[j].syncSize >= 0
    ensures Total(blocks, g) >= Weight(blocks[k], g)
  {
    TotalSplit(blocks, g, k);
    TotalNonNegative(blocks - {k}, g);
  }

  /** The buffer keeps its limits and never shrinks.  Only a retry changes it: by nothing unless it gives up a large
      orphan, and by at least each one it gives up, up to the limit. */
  lemma StepGrows(l: Limits, s: Sheet, step: Step)
    requires s.c.buffer <= l.max && forall p :: p in s.file.blocks ==> s.file.blocks[p].syncSize >= 0
    ensures var c, c' := s.c, Perform(l, s, step).c;
            && c.buffer <= c'.buffer <= l.max
            && (c'.buffer != c.buffer ==> step.Retry? && exists p :: LargeOrphan(l, s.file.blocks, p))
            && (step.Retry? ==> forall p :: LargeOrphan(l, s.file.blocks, p) ==>
                  c'.buffer >= Min(c.buffer + s.file.blocks[p].syncSize, l.max))
  {
    if step.Retry? {
      var blocks, g := s.file.blocks, InLargeOrphans(l.min);
      forall p | p in blocks
        ensures blocks[p].syncSize >= 0
      {
      }
      TotalNonNegative(blocks, g);
      forall p | LargeOrphan(l, blocks, p)
        ensures Perform(l, s, step).c.buffer >= Min(s.c.buffer + blocks[p].syncSize, l.max)
      {
        TotalAtLeast(blocks, g, p);
      }
      if forall p :: !LargeOrphan(l, blocks, p) {
        forall p | p in blocks
          ensures Weight(blocks[p], g) == 0
        {
          assert !LargeOrphan(l, blocks, p);
        }
        TotalZero(blocks, g);
      }
    }
  }

  /** A sync that is finished makes the buffer grow by its size, up to the limit, if it is large enough. */
  lemma FinishGrows(l: Limits, s: Sheet)
    requires s.c.buffer <= l.max
    ensures var b := Settled(l, s).c.buffer;
            b == if Grows(l, s.file.totalSync) then Min(s.c.buffer + s.file.totalSync, l.max) else s.c.buffer
  {
  }

  // ---------- Finishing ----------

  /** Nothing is left to settle: finishing again, or assimilating, changes no counter. */
  lemma SettledForGood(l: Limits, s: Sheet)
    ensures var t := Settled(l, s);
            && Settled(l, t) == t && Perform(l, t, Assimilate).c == t.c
            && t.file.blocks == s.file.blocks
  {
  }

  /** Orphans do not keep a sync from finishing, and are not finished by it. */
  lemma OrphansDoNotBlock(l: Limits, s: Sheet, tail: BlockPointer)
    requires forall p :: p in s.file.blocks && s.file.blocks[p].sync == Syncing ==> s.file.blocks[p].orphaned
    ensures CanFinishSync(s, tail) && TailDone(s, tail) == s
  {
  }

  /** Any other block than the top one that is still syncing does. */
  lemma OthersBlock(s: Sheet, tail: BlockPointer, p: BlockPointer)
    requires p in s.file.blocks && p != tail && s.file.blocks[p].sync == Syncing && !s.file.blocks[p].orphaned
    ensures !CanFinishSync(s, tail)
  {
    assert InSync(s.file.blocks, p);
  }
}

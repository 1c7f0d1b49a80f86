/** The dirty blocks of a file on their way to the server, and the byte counters they move (libkbfs/dirty_file.go,
    libkbfs/dirty_bcache.go). */
module DirtyBlocks {
  import opened Arithmetic
  import opened Ops

  datatype SyncState = NotSyncing | Syncing | Synced

  /** copied says that the caller's copy of the block may be modified in place. */
  datatype BlockState = BlockState(sync: SyncState, copied: bool, syncSize: int, orphaned: bool)

  const CLEAN := BlockState(NotSyncing, false, 0, false)

  type BlockStates = map<BlockPointer, BlockState>

  function StateOf(blocks: BlockStates, p: BlockPointer): BlockState {
    if p in blocks then blocks[p] else CLEAN
  }

  // ---------- Adding up the sizes of blocks ----------

  /** A group of blocks. */
  datatype Group = InSyncing | InSynced | InOrphans | InRetry | InLargeOrphans(min: int)

  /** The bytes of a block that count for a group.  Orphans count while they take part in a sync, and so do the blocks
      that a retry has to sync again. */
  function Weight(b: BlockState, g: Group): int {
    match g
    case InSyncing => if b.sync == Syncing then b.syncSize else 0
    case InSynced => if b.sync == Synced then b.syncSize else 0
    case InOrphans => if b.orphaned && b.sync != NotSyncing then b.syncSize else 0
    case InRetry => if !b.orphaned && b.sync != NotSyncing then b.syncSize else 0
    case InLargeOrphans(min) =>
      if b.orphaned && b.sync == Synced && b.syncSize > 0 && b.syncSize >= min then b.syncSize else 0
  }

  ghost function Total<K>(blocks: map<K, BlockState>, g: Group): int {
    if blocks == map[] then 0
    else
      var k :| k in blocks;
      Weight(blocks[k], g) + Total(blocks - {k}, g)
  }

  lemma {:induction false} TotalSplit<K>(blocks: map<K, BlockState>, g: Group, k: K)
    requires k in blocks
    ensures Total(blocks, g) == Weight(blocks[k], g) + Total(blocks - {k}, g)
  {
    var j :| j in blocks && Total(blocks, g) == Weight(blocks[j], g) + Total(blocks - {j}, g);
    if j != k {
      TotalSplit(blocks - {j}, g, k);
      assert blocks - {j} - {k} == blocks - {k} - {j};
      TotalSplit(blocks - {k}, g, j);
    }
  }

  lemma TotalUpdate<K>(blocks: map<K, BlockState>, g: Group, k: K, b: BlockState)
    ensures Total(blocks[k := b], g)
            == Total(blocks, g) + Weight(b, g) - (if k in blocks then Weight(blocks[k], g) else 0)
  {
    TotalSplit(blocks[k := b], g, k);
    if k in blocks {
      TotalSplit(blocks, g, k);
      assert blocks[k := b] - {k} == blocks - {k};
    } else {
      assert blocks[k := b] - {k} == blocks;
    }
  }

  lemma {:induction false} TotalZero<K>(blocks: map<K, BlockState>, g: Group)
    requires forall k :: k in blocks ==> Weight(blocks[k], g) == 0
    ensures Total(blocks, g) == 0
  {
    if blocks != map[] {
      var k :| k in blocks;
      TotalSplit(blocks, g, k);
      TotalZero(blocks - {k}, g);
    }
  }

  // ---------- The counters of the cache ----------

  /** The sync buffer stays between min and max bytes. */
  datatype Limits = Limits(min: int, max: int)

  ghost predicate ValidLimits(l: Limits) {
    0 <= l.min <= l.max
  }

  datatype Counters = Counters(unsynced: int, syncing: int, total: int, buffer: int)

  function AddUnsynced(c: Counters, n: int, wasSyncing: bool): Counters {
    c.(unsynced := c.unsynced + n, total := c.total + n, syncing := c.syncing + if wasSyncing then n else 0)
  }

  function BlockFinished(c: Counters, size: int): Counters {
    c.(unsynced := c.unsynced - size, syncing := c.syncing - if size > 0 then size else 0)
  }

  function Finished(l: Limits, c: Counters, size: int): Counters {
    if size <= 0 then c
    else c.(total := c.total - size, buffer := if size >= l.min then Min(c.buffer + size, l.max) else c.buffer)
  }

  class DirtyBlockCache {
    const limits: Limits
    var unsynced: int
    var syncing: int
    var total: int
    var buffer: int

    ghost function Abstract(): Counters
      reads this
    {
      Counters(unsynced, syncing, total, buffer)
    }

    ghost predicate Valid()
      reads this
    {
      ValidLimits(limits) && limits.min <= buffer <= limits.max
    }

    constructor (limits: Limits)
      requires ValidLimits(limits)
      ensures Valid() && this.limits == limits && Abstract() == Counters(0, 0, 0, limits.min)
    {
      this.limits := limits;
      unsynced, syncing, total, buffer := 0, 0, 0, limits.min;
    }

    /** A write is let in while the buffer is not full.  One that waited for more than half of its time shrinks it. */
    method AcceptNewWrite(newBytes: int, slow: bool) returns (accepted: bool)
      requires Valid()
      modifies this
      ensures Valid() && accepted == (old(total) < old(buffer))
      ensures var c := old(Abstract());
              Abstract() == if !accepted then c
                            else AddUnsynced(c, newBytes, false).(buffer := buffer)
      ensures buffer == if accepted && slow && old(buffer) / 2 >= limits.min then old(buffer) / 2
                        else if accepted && slow then limits.min
                        else old(buffer)
    {
      accepted := total < buffer;
      if accepted {
        unsynced := unsynced + newBytes;
        total := total + newBytes;
        if slow {
          buffer := buffer / 2;
          if buffer < limits.min {
            buffer := limits.min;
          }
        }
      }
    }

    method UpdateUnsyncedBytes(n: int, wasSyncing: bool)
      requires Valid()
      modifies this
      ensures Valid() && Abstract() == AddUnsynced(old(Abstract()), n, wasSyncing)
    {
      unsynced := unsynced + n;
      total := total + n;
      if wasSyncing {
        syncing := syncing + n;
      }
    }

    method UpdateSyncingBytes(size: int)
      requires Valid()
      modifies this
      ensures Valid() && Abstract() == old(Abstract()).(syncing := old(syncing) + size)
    {
      syncing := syncing + size;
    }

    method BlockSyncFinished(size: int)
      requires Valid()
      modifies this
      ensures Valid() && Abstract() == BlockFinished(old(Abstract()), size)
    {
      unsynced := unsynced - size;
      if size > 0 {
        syncing := syncing - size;
      }
    }

    method SyncFinished(size: int)
      requires Valid()
      modifies this
      ensures Valid() && Abstract() == Finished(limits, old(Abstract()), size)
    {
      if size <= 0 {
        return;
      }
      total := total - size;
      if size >= limits.min {
        buffer := buffer + size;
        if buffer > limits.max {
          buffer := limits.max;
        }
      }
    }

    /** No bytes may be left over, those of requests still waiting included. */
    method Shutdown(requests: seq<nat>) returns (ok: bool)
      modifies this
      ensures Abstract() == AddUnsynced(old(Abstract()), Sum(requests), false)
      ensures ok <==> old(unsynced) + Sum(requests) == 0 && old(total) + Sum(requests) == 0 && old(syncing) == 0
    {
      var i := 0;
      while i < |requests|
        invariant i <= |requests|
        invariant unsynced + Sum(requests[i..]) == old(unsynced) + Sum(requests)
        invariant total + Sum(requests[i..]) == old(total) + Sum(requests)
        invariant syncing == old(syncing) && buffer == old(buffer)
      {
        assert requests[i..][1..] == requests[i + 1..];
        unsynced := unsynced + requests[i];
        total := total + requests[i];
        i := i + 1;
      }
      return unsynced == 0 && total == 0 && syncing == 0;
    }
  }

  function Sum(s: seq<nat>): nat {
    if s == [] then 0 else s[0] + Sum(s[1..])
  }

  // ---------- The steps of a dirty file ----------

  datatype DirtyState = DirtyState(blocks: BlockStates, notYet: int, totalSync: int, deferred: int)

  /** A file that was just made dirty. */
  ghost predicate NewFile(f: DirtyState) {
    |f.blocks| == 0 && f.notYet == f.totalSync == f.deferred == 0
  }

  /** A dirty file and the counters of its cache, which other files share. */
  datatype Sheet = Sheet(file: DirtyState, c: Counters)

  datatype Step =
    | Report(n: int)
    | Dirty(p: BlockPointer)
    | NotDirty(p: BlockPointer)
    | Start(p: BlockPointer, size: nat)
    | Done(p: BlockPointer)
    | Orphan(p: BlockPointer, orphaned: bool)
    | Retry
    | Defer(n: int)
    | Assimilate

  function SetBlock(s: Sheet, p: BlockPointer, b: BlockState): Sheet {
    s.(file := s.file.(blocks := s.file.blocks[p := b]))
  }

  predicate CanStart(s: Sheet, p: BlockPointer) {
    StateOf(s.file.blocks, p).copied
  }

  /** Start syncing a dirty block of that size. */
  function Started(s: Sheet, p: BlockPointer, size: nat): Sheet {
    if !CanStart(s, p) then s
    else
      var b := BlockState(Syncing, false, size, StateOf(s.file.blocks, p).orphaned);
      var f := s.file;
      Sheet(f.(blocks := f.blocks[p := b], totalSync := f.totalSync + size, notYet := f.notYet - size),
            s.c.(syncing := s.c.syncing + size))
  }

  /** The block was never started since it was last reset. */
  predicate WasReset(s: Sheet, p: BlockPointer) {
    p !in s.file.blocks || (s.file.blocks[p].copied && s.file.blocks[p].sync == NotSyncing)
  }

  predicate CanFinish(s: Sheet, p: BlockPointer) {
    WasReset(s, p) || s.file.blocks[p].sync == Syncing || s.file.blocks[p].orphaned
  }

  function BlockDone(s: Sheet, p: BlockPointer): Sheet {
    if WasReset(s, p) || !CanFinish(s, p) then s
    else
      var b := s.file.blocks[p];
      SetBlock(s, p, b.(sync := Synced)).(c := BlockFinished(s.c, b.syncSize))
  }

  function ResetBlock(b: BlockState): BlockState {
    if b.sync == NotSyncing then b else BlockState(NotSyncing, true, 0, false)
  }

  /** Orphans are forgotten, and all other blocks of the sync are dirty again. */
  function ResetBlocks(blocks: BlockStates): BlockStates {
    map p | p in blocks && !blocks[p].orphaned :: ResetBlock(blocks[p])
  }

  ghost function Reset(l: Limits, s: Sheet): Sheet {
    var f, c := s.file, s.c;
    var total := c.total - Total(f.blocks, InOrphans);
    Sheet(f.(blocks := ResetBlocks(f.blocks), totalSync := 0),
          Counters(total - (c.total - c.unsynced - Total(f.blocks, InSynced)),
                   c.syncing - Total(f.blocks, InSyncing),
                   total,
                   Min(c.buffer + Total(f.blocks, InLargeOrphans(l.min)), l.max)))
  }

  ghost function Perform(l: Limits, s: Sheet, step: Step): Sheet {
    match step
    case Report(n) => Sheet(s.file.(notYet := s.file.notYet + n), AddUnsynced(s.c, n, false))
    case Dirty(p) => SetBlock(s, p, StateOf(s.file.blocks, p).(copied := true))
    case NotDirty(p) => SetBlock(s, p, StateOf(s.file.blocks, p).(copied := false))
    case Start(p, size) => Started(s, p, size)
    case Done(p) => BlockDone(s, p)
    case Orphan(p, orphaned) =>
      if p in s.file.blocks then SetBlock(s, p, s.file.blocks[p].(orphaned := orphaned)) else s
    case Retry => Reset(l, s)
    case Defer(n) => s.(file := s.file.(deferred := s.file.deferred + n))
    case Assimilate => Sheet(s.file.(deferred := 0), AddUnsynced(s.c, s.file.deferred, false))
  }

  // ---------- What every step keeps ----------

  /** Blocks outside a sync carry no bytes of one, and the file's total is that of the blocks in the sync. */
  ghost predicate Sound(f: DirtyState) {
    && (forall p :: p in f.blocks ==> f.blocks[p].syncSize >= 0)
    && (forall p :: p in f.blocks && f.blocks[p].sync == NotSyncing ==> f.blocks[p].syncSize == 0)
    && f.totalSync == Total(f.blocks, InSyncing) + Total(f.blocks, InSynced)
  }

  /** The syncing bytes that are not of this file's syncing blocks. */
  ghost function OtherSyncing(s: Sheet): int {
    s.c.syncing - Total(s.file.blocks, InSyncing)
  }

  /** The bytes that count as synced but are not of this file's synced blocks. */
  ghost function OtherSynced(s: Sheet): int {
    s.c.total - s.c.unsynced - Total(s.file.blocks, InSynced)
  }

  /** The step starts a block that is still in the sync, or finishes an orphan for the second time. */
  predicate Miscounts(s: Sheet, step: Step) {
    match step
    case Start(p, size) => CanStart(s, p) && StateOf(s.file.blocks, p).syncSize > 0
    case Done(p) => p in s.file.blocks && s.file.blocks[p].orphaned && s.file.blocks[p].sync == Synced
                    && s.file.blocks[p].syncSize > 0
    case _ => false
  }

  lemma SameWeights(s: Sheet, p: BlockPointer, b: BlockState, g: Group)
    requires Weight(b, g) == Weight(StateOf(s.file.blocks, p), g)
    ensures Total(SetBlock(s, p, b).file.blocks, g) == Total(s.file.blocks, g)
  {
    TotalUpdate(s.file.blocks, g, p, b);
  }

  lemma StartCounts(l: Limits, s: Sheet, p: BlockPointer, size: nat)
    requires Sound(s.file)
    ensures var s' := Started(s, p, size);
            && (OtherSyncing(s') == OtherSyncing(s) && OtherSynced(s') == OtherSynced(s)
                <==> !Miscounts(s, Start(p, size)))
            && (!Miscounts(s, Start(p, size)) ==> Sound(s'.file))
  {
    if CanStart(s, p) {
      var b := BlockState(Syncing, false, size, StateOf(s.file.blocks, p).orphaned);
      TotalUpdate(s.file.blocks, InSyncing, p, b);
      TotalUpdate(s.file.blocks, InSynced, p, b);
    }
  }

  lemma DoneCounts(s: Sheet, p: BlockPointer)
    requires Sound(s.file)
    ensures var s' := BlockDone(s, p);
            && (OtherSyncing(s') == OtherSyncing(s) && OtherSynced(s') == OtherSynced(s) <==> !Miscounts(s, Done(p)))
            && (!Miscounts(s, Done(p)) ==> Sound(s'.file))
  {
    if !WasReset(s, p) && CanFinish(s, p) {
      var b := s.file.blocks[p];
      TotalUpdate(s.file.blocks, InSyncing, p, b.(sync := Synced));
      TotalUpdate(s.file.blocks, InSynced, p, b.(sync := Synced));
    }
  }

  lemma ResetCounts(l: Limits, s: Sheet)
    requires Sound(s.file)
    ensures var s' := Reset(l, s);
            OtherSyncing(s') == OtherSyncing(s) && OtherSynced(s') == OtherSynced(s) && Sound(s'.file)
  {
    var blocks := ResetBlocks(s.file.blocks);
    forall p | p in blocks
      ensures blocks[p].sync == NotSyncing && blocks[p].syncSize == 0
    {
    }
    TotalZero(blocks, InSyncing);
    TotalZero(blocks, InSynced);
  }

  /** The two differences are kept by exactly the steps that do not miscount, retries included. */
  lemma StepCounts(l: Limits, s: Sheet, step: Step)
    requires Sound(s.file)
    ensures var s' := Perform(l, s, step);
            && (OtherSyncing(s') == OtherSyncing(s) && OtherSynced(s') == OtherSynced(s) <==> !Miscounts(s, step))
            && (!Miscounts(s, step) ==> Sound(s'.file))
  {
    match step
    case Dirty(p) =>
      var b := StateOf(s.file.blocks, p).(copied := true);
      SameWeights(s, p, b, InSyncing);
      SameWeights(s, p, b, InSynced);
    case NotDirty(p) =>
      var b := StateOf(s.file.blocks, p).(copied := false);
      SameWeights(s, p, b, InSyncing);
      SameWeights(s, p, b, InSynced);
    case Start(p, size) => StartCounts(l, s, p, size);
    case Done(p) => DoneCounts(s, p);
    case Orphan(p, orphaned) =>
      if p in s.file.blocks {
        var b := s.file.blocks[p].(orphaned := orphaned);
        SameWeights(s, p, b, InSyncing);
        SameWeights(s, p, b, InSynced);
      }
    case Retry => ResetCounts(l, s);
    case _ =>
  }
}

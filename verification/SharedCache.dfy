/** Several dirty files at once on the counters of one cache (libkbfs/dirty_file.go, libkbfs/dirty_bcache.go). */
module SharedCache {
  import opened Arithmetic
  import opened DirtyBlocks
  import opened DirtyFiles
  import opened Ops
  import opened Outcomes

  const CLEAN_FILE := DirtyState(map[], 0, 0, 0)

  /** The dirty files of a cache and its counters. */
  datatype Shared = Shared(files: seq<DirtyState>, c: Counters)

  /** A step of file i; the end of its sync, after which the file is forgotten; or a write that is let in. */
  datatype SharedStep = FileStep(i: nat, step: Step) | FinishFile(i: nat, tail: BlockPointer) | Admit(n: int)

  function SheetOf(sh: Shared, i: nat): Sheet
    requires i < |sh.files|
  {
    Sheet(sh.files[i], sh.c)
  }

  function WithSheet(sh: Shared, i: nat, s: Sheet): Shared
    requires i < |sh.files|
  {
    Shared(sh.files[i := s.file], s.c)
  }

  /** The step is of a file there is, does not miscount, and finishes a file only when it can be finished. */
  ghost predicate Proper(sh: Shared, st: SharedStep) {
    match st
    case FileStep(i, step) => i < |sh.files| && !Miscounts(SheetOf(sh, i), step)
    case FinishFile(i, tail) =>
      i < |sh.files| && CanFinishSync(SheetOf(sh, i), tail) && OrphansSynced(SheetOf(sh, i))
    case Admit(_) => true
  }

  ghost function Finish(l: Limits, s: Sheet, tail: BlockPointer, clean: DirtyState): Sheet {
    Sheet(clean, Settled(l, TailDone(s, tail)).c)
  }

  ghost function Share(l: Limits, sh: Shared, st: SharedStep): Shared
    requires Proper(sh, st)
  {
    match st
    case FileStep(i, step) => WithSheet(sh, i, Perform(l, SheetOf(sh, i), step))
    case FinishFile(i, tail) => WithSheet(sh, i, Finish(l, SheetOf(sh, i), tail, CLEAN_FILE))
    case Admit(n) => sh.(c := AddUnsynced(sh.c, n, false))
  }

  /** The bytes of a group in the first n files. */
  ghost function SumOf(files: seq<DirtyState>, n: nat, g: Group): int
    requires n <= |files|
  {
    if n == 0 then 0 else SumOf(files, n - 1, g) + Total(files[n - 1].blocks, g)
  }

  lemma {:induction false} SumUpdate(files: seq<DirtyState>, n: nat, g: Group, i: nat, f: DirtyState)
    requires n <= |files| && i < |files|
    ensures SumOf(files[i := f], n, g)
            == SumOf(files, n, g) + if i < n then Total(f.blocks, g) - Total(files[i].blocks, g) else 0
  {
    if n > 0 {
      SumUpdate(files, n - 1, g, i, f);
    }
  }

  /** Since counters c, exactly the syncing blocks of all files were added to the syncing bytes, and exactly their
      synced blocks to the difference between total and unsynced bytes. */
  ghost predicate Balanced(c: Counters, sh: Shared) {
    && (forall i :: 0 <= i < |sh.files| ==> Sound(sh.files[i]))
    && sh.c.syncing == c.syncing + SumOf(sh.files, |sh.files|, InSyncing)
    && sh.c.total - sh.c.unsynced == c.total - c.unsynced + SumOf(sh.files, |sh.files|, InSynced)
  }

  lemma SheetBalances(c: Counters, sh: Shared, i: nat, s: Sheet)
    requires Balanced(c, sh) && i < |sh.files| && Sound(s.file)
    requires OtherSyncing(s) == OtherSyncing(SheetOf(sh, i)) && OtherSynced(s) == OtherSynced(SheetOf(sh, i))
    ensures Balanced(c, WithSheet(sh, i, s))
  {
    SumUpdate(sh.files, |sh.files|, InSyncing, i, s.file);
    SumUpdate(sh.files, |sh.files|, InSynced, i, s.file);
  }

  lemma CleanIsSound(f: DirtyState)
    requires NewFile(f)
    ensures Sound(f) && Total(f.blocks, InSyncing) == 0 && Total(f.blocks, InSynced) == 0
  {
    TotalZero(f.blocks, InSyncing);
    TotalZero(f.blocks, InSynced);
  }

  /** Finishing gives back what the file has in the counters. */
  lemma FinishBalances(l: Limits, s: Sheet, tail: BlockPointer, clean: DirtyState)
    requires Sound(s.file) && CanFinishSync(s, tail) && OrphansSynced(s) && NewFile(clean)
    ensures var s' := Finish(l, s, tail, clean);
            Sound(s'.file) && OtherSyncing(s') == OtherSyncing(s) && OtherSynced(s') == OtherSynced(s)
  {
    TailCounts(l, s, tail);
    CleanIsSound(clean);
  }

  lemma StepBalances(l: Limits, c: Counters, sh: Shared, st: SharedStep)
    requires Balanced(c, sh) && Proper(sh, st)
    ensures Balanced(c, Share(l, sh, st))
  {
    match st
    case FileStep(i, step) =>
      StepCounts(l, SheetOf(sh, i), step);
      SheetBalances(c, sh, i, Perform(l, SheetOf(sh, i), step));
    case FinishFile(i, tail) =>
      FinishBalances(l, SheetOf(sh, i), tail, CLEAN_FILE);
      SheetBalances(c, sh, i, Finish(l, SheetOf(sh, i), tail, CLEAN_FILE));
    case Admit(_) =>
  }

  /** The files and counters after a run, if every step of it is proper. */
  ghost function SharedAfter(l: Limits, start: Shared, steps: seq<SharedStep>): Option<Shared> {
    if |steps| == 0 then Some(start)
    else
      var p, st := SharedAfter(l, start, steps[..|steps| - 1]), steps[|steps| - 1];
      if p.Some? && Proper(p.value, st) then Some(Share(l, p.value, st)) else None
  }

  ghost predicate AllNew(files: seq<DirtyState>) {
    forall i :: 0 <= i < |files| ==> NewFile(files[i])
  }

  lemma {:induction false} AllClean(files: seq<DirtyState>, n: nat, g: Group)
    requires n <= |files| && AllNew(files)
    ensures SumOf(files, n, g) == 0
  {
    if n > 0 {
      AllClean(files, n - 1, g);
      TotalZero(files[n - 1].blocks, g);
    }
  }

  lemma CleanBalances(sh: Shared)
    requires AllNew(sh.files)
    ensures Balanced(sh.c, sh)
  {
    AllClean(sh.files, |sh.files|, InSyncing);
    AllClean(sh.files, |sh.files|, InSynced);
    forall i | 0 <= i < |sh.files|
      ensures Sound(sh.files[i])
    {
      CleanIsSound(sh.files[i]);
    }
  }

  /** However the steps of any number of files interleave, retries and ends of syncs included, the counters account for
      the blocks of all of them. */
  lemma {:induction false} SharedRunBalances(l: Limits, start: Shared, steps: seq<SharedStep>)
    requires AllNew(start.files)
    ensures var sh := SharedAfter(l, start, steps); sh.Some? ==> Balanced(start.c, sh.value)
  {
    if |steps| == 0 {
      CleanBalances(start);
    } else {
      var p, st := SharedAfter(l, start, steps[..|steps| - 1]), steps[|steps| - 1];
      SharedRunBalances(l, start, steps[..|steps| - 1]);
      if p.Some? && Proper(p.value, st) {
        StepBalances(l, start.c, p.value, st);
      }
    }
  }

  // ---------- The total ----------

  /** What a step adds to the total: the bytes it charges, less those that the end of a sync settles. */
  ghost function Delta(sh: Shared, st: SharedStep): int
    requires Proper(sh, st)
  {
    match st
    case FileStep(i, step) => Charge(SheetOf(sh, i), step)
    case FinishFile(i, _) => -(sh.files[i].totalSync + Max(sh.files[i].notYet, 0))
    case Admit(n) => n
  }

  lemma TotalStep(l: Limits, c: Counters, sh: Shared, st: SharedStep)
    requires Balanced(c, sh) && Proper(sh, st)
    ensures Share(l, sh, st).c.total == sh.c.total + Delta(sh, st) && |Share(l, sh, st).files| == |sh.files|
  {
    match st
    case FileStep(i, step) => StepCharges(l, SheetOf(sh, i), step);
    case FinishFile(i, tail) => TailCounts(l, SheetOf(sh, i), tail);
    case Admit(_) =>
  }

  predicate OfFile(st: SharedStep, i: nat) {
    !st.Admit? && st.i == i
  }

  /** What the steps of file i have added to the total. */
  ghost function NetOf(l: Limits, start: Shared, steps: seq<SharedStep>, i: nat): int {
    if |steps| == 0 then 0
    else
      var p, st := steps[..|steps| - 1], steps[|steps| - 1];
      var sh := SharedAfter(l, start, p);
      NetOf(l, start, p, i) + if sh.Some? && Proper(sh.value, st) && OfFile(st, i) then Delta(sh.value, st) else 0
  }

  /** The sum of that over the first n files. */
  ghost function NetSum(l: Limits, start: Shared, steps: seq<SharedStep>, n: nat): int {
    if n == 0 then 0 else NetSum(l, start, steps, n - 1) + NetOf(l, start, steps, n - 1)
  }

  /** The bytes of the writes that were let in. */
  function Admitted(steps: seq<SharedStep>): int {
    if |steps| == 0 then 0
    else Admitted(steps[..|steps| - 1]) + if steps[|steps| - 1].Admit? then steps[|steps| - 1].n else 0
  }

  lemma {:induction false} NetSumMore(l: Limits, start: Shared, steps: seq<SharedStep>, sh: Shared, n: nat)
    requires |steps| > 0 && SharedAfter(l, start, steps[..|steps| - 1]) == Some(sh) && Proper(sh, steps[|steps| - 1])
    ensures var p, st := steps[..|steps| - 1], steps[|steps| - 1];
            NetSum(l, start, steps, n)
            == NetSum(l, start, p, n) + if !st.Admit? && st.i < n then Delta(sh, st) else 0
    decreases n
  {
    if n > 0 {
      NetSumMore(l, start, steps, sh, n - 1);
    }
  }

  lemma {:induction false} NoNet(l: Limits, start: Shared, steps: seq<SharedStep>, n: nat)
    requires |steps| == 0
    ensures NetSum(l, start, steps, n) == 0
    decreases n
  {
    if n > 0 {
      NoNet(l, start, steps, n - 1);
    }
  }

  /** In every run the total has moved by the writes let in and by what each file charged and settled. */
  lemma {:induction false} SharedRunTotal(l: Limits, start: Shared, steps: seq<SharedStep>)
    requires AllNew(start.files)
    ensures var sh := SharedAfter(l, start, steps);
            sh.Some? ==>
              && |sh.value.files| == |start.files|
              && sh.value.c.total == start.c.total + Admitted(steps) + NetSum(l, start, steps, |start.files|)
  {
    if |steps| == 0 {
      NoNet(l, start, steps, |start.files|);
    } else {
      var p, st := steps[..|steps| - 1], steps[|steps| - 1];
      SharedRunTotal(l, start, p);
      SharedRunBalances(l, start, p);
      var sh := SharedAfter(l, start, p);
      if sh.Some? && Proper(sh.value, st) {
        TotalStep(l, start.c, sh.value, st);
        NetSumMore(l, start, steps, sh.value, |start.files|);
      }
    }
  }

  lemma NothingOut(c: Counters, sh: Shared)
    requires Balanced(c, sh) && AllNew(sh.files)
    ensures sh.c.syncing == c.syncing && sh.c.total - sh.c.unsynced == c.total - c.unsynced
  {
    AllClean(sh.files, |sh.files|, InSyncing);
    AllClean(sh.files, |sh.files|, InSynced);
  }

  /** So when all files have finished, the syncing bytes and the difference between total and unsynced bytes are back
      where they were; and the total and the unsynced bytes are too, exactly if what all files charged, less what they
      settled, and the writes let in come to nothing. */
  lemma AllFinished(l: Limits, start: Shared, steps: seq<SharedStep>)
    requires AllNew(start.files)
    ensures var sh := SharedAfter(l, start, steps);
            sh.Some? && AllNew(sh.value.files) ==>
              && sh.value.c.syncing == start.c.syncing
              && sh.value.c.total - sh.value.c.unsynced == start.c.total - start.c.unsynced
              && (sh.value.c.total == start.c.total && sh.value.c.unsynced == start.c.unsynced
                  <==> Admitted(steps) + NetSum(l, start, steps, |start.files|) == 0)
  {
    SharedRunBalances(l, start, steps);
    SharedRunTotal(l, start, steps);
    var sh := SharedAfter(l, start, steps);
    if sh.Some? && AllNew(sh.value.files) {
      NothingOut(start.c, sh.value);
    }
  }

  /** For a cache that started at zero, the test at shutdown then passes exactly if that is so with the requests still
      waiting counted in. */
  lemma ShutdownPasses(l: Limits, start: Shared, steps: seq<SharedStep>, requests: seq<nat>)
    requires AllNew(start.files) && start.c.unsynced == start.c.syncing == start.c.total == 0
    ensures var sh := SharedAfter(l, start, steps);
            sh.Some? && AllNew(sh.value.files) ==>
              var c := sh.value.c;
              (c.unsynced + Sum(requests) == 0 && c.total + Sum(requests) == 0 && c.syncing == 0
               <==> Admitted(steps) + NetSum(l, start, steps, |start.files|) + Sum(requests) == 0)
  {
    AllFinished(l, start, steps);
    SharedRunTotal(l, start, steps);
  }
}

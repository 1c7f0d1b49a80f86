/** Tables that stand integers in for file systems and open files (dokan/pointertable.go). */
module HandleTables {
  import opened Outcomes

  /** Handles are 32-bit. */
  const HANDLES: int := 0x1_0000_0000

  // ---------- Open files ----------

  predicate IsFree<F>(files: map<int, F>, h: int) {
    0 < h < HANDLES && h !in files
  }

  /** How many steps of the counter lead from idx to h. */
  function Distance(idx: int, h: int): int {
    if idx < h then h - idx else HANDLES - 1 - idx + h
  }

  /** The counter after that many steps from idx; it goes round and skips zero. */
  function Counter(idx: int, steps: nat): int {
    if steps == 0 then idx
    else
      var i := Counter(idx, steps - 1);
      if i + 1 == HANDLES then 1 else i + 1
  }

  lemma {:induction false} CounterIs(idx: int, steps: nat)
    requires 0 <= idx < HANDLES && steps < HANDLES
    ensures Counter(idx, steps) == if idx + steps < HANDLES then idx + steps else idx + steps - HANDLES + 1
  {
    if steps > 0 {
      CounterIs(idx, steps - 1);
    }
  }

  /** The distance to a handle is the least number of steps after which the counter gets there. */
  lemma DistanceIsLeast(idx: int, h: int)
    requires 0 <= idx < HANDLES && 0 < h < HANDLES
    ensures 0 < Distance(idx, h) < HANDLES && Counter(idx, Distance(idx, h)) == h
    ensures forall n :: 0 < n < Distance(idx, h) ==> Counter(idx, n) != h
  {
    CounterIs(idx, Distance(idx, h));
    forall n | 0 < n < Distance(idx, h)
      ensures Counter(idx, n) != h
    {
      CounterIs(idx, n);
    }
  }

  class FileTable<F> {
    var files: map<int, F>
    var idx: int

    ghost predicate Valid()
      reads this
    {
      0 <= idx < HANDLES && forall h :: h in files ==> 0 < h < HANDLES
    }

    constructor ()
      ensures Valid() && files == map[]
    {
      files, idx := map[], 0;
    }

    /** Look for a free handle.  There has to be one, or the search goes on forever; then it ends at the one that is
        nearest in the order of the counter. */
    method StoreFile(f: F) returns (handle: int)
      requires Valid() && exists h :: IsFree(files, h)
      modifies this
      ensures Valid() && idx == handle
      ensures Happens(old(files), Stored(handle, f), files)
      ensures forall h :: IsFree(old(files), h) ==> Distance(old(idx), handle) <= Distance(old(idx), h)
    {
      ghost var goal :| IsFree(files, goal);
      ghost var steps := 0;
      while true
        invariant Valid() && files == old(files)
        invariant 0 <= steps < HANDLES
        invariant forall h :: IsFree(files, h) ==> Distance(old(idx), h) == steps + Distance(idx, h)
        decreases Distance(idx, goal)
      {
        assert Distance(old(idx), goal) == steps + Distance(idx, goal);
        idx := (idx + 1) % HANDLES;
        if idx == 0 {
          idx := idx + 1;
        }
        if idx !in files {
          files := files[idx := f];
          return idx;
        }
        steps := steps + 1;
      }
    }

    method GetFile(handle: int) returns (f: Option<F>)
      ensures f == if handle in files then Some(files[handle]) else None
    {
      return if handle in files then Some(files[handle]) else None;
    }

    method FreeFile(handle: int)
      requires Valid()
      modifies this
      ensures Valid() && Happens(old(files), Freed(handle), files) && idx == old(idx)
    {
      files := files - {handle};
    }
  }

  // ---------- Runs ----------

  datatype Event<F> = Stored(handle: int, f: F) | Freed(handle: int)

  ghost predicate Happens<F>(files: map<int, F>, e: Event<F>, files': map<int, F>) {
    match e
    case Stored(h, f) => IsFree(files, h) && files' == files[h := f]
    case Freed(h) => files' == files - {h}
  }

  ghost predicate IsRun<F>(tables: seq<map<int, F>>, es: seq<Event<F>>) {
    |tables| == |es| + 1 && forall i :: 0 <= i < |es| ==> HappensAt(tables, es, i)
  }

  ghost predicate HappensAt<F>(tables: seq<map<int, F>>, es: seq<Event<F>>, i: nat) {
    i < |es| && i + 1 < |tables| && Happens(tables[i], es[i], tables[i + 1])
  }

  /** From when a file is stored until its handle is freed, looking up the handle gives the file, and the handle,
      which is not zero, is not given to another. */
  lemma {:induction false} HandleStays<F>(tables: seq<map<int, F>>, es: seq<Event<F>>, i: nat, j: nat)
    requires IsRun(tables, es) && i < j <= |es| && es[i].Stored?
    requires forall k :: i < k < j ==> es[k] != Freed(es[i].handle)
    ensures var h := es[i].handle;
            && h != 0 && h in tables[j] && tables[j][h] == es[i].f
            && (forall k :: i < k < j && es[k].Stored? ==> es[k].handle != h)
  {
    if j == i + 1 {
      assert HappensAt(tables, es, i);
    } else {
      HandleStays(tables, es, i, j - 1);
      assert HappensAt(tables, es, j - 1);
    }
  }

  /** The last event before n that names the handle stores a file under it. */
  ghost predicate LastStores<F>(es: seq<Event<F>>, n: nat, h: int) {
    exists i: nat :: StoresLast(es, n, h, i)
  }

  ghost predicate StoresLast<F>(es: seq<Event<F>>, n: nat, h: int, i: nat) {
    i < n <= |es| && es[i].Stored? && es[i].handle == h && forall k :: i < k < n ==> es[k].handle != h
  }

  lemma LastStoresStep<F>(es: seq<Event<F>>, n: nat, h: int)
    requires 0 < n <= |es|
    ensures LastStores(es, n, h) <==> if es[n - 1].handle == h then es[n - 1].Stored? else LastStores(es, n - 1, h)
  {
    if es[n - 1].handle == h {
      assert es[n - 1].Stored? ==> StoresLast(es, n, h, n - 1);
    } else if LastStores(es, n - 1, h) {
      var i: nat :| StoresLast(es, n - 1, h, i);
      assert StoresLast(es, n, h, i);
    } else if LastStores(es, n, h) {
      var i: nat :| StoresLast(es, n, h, i);
      assert StoresLast(es, n - 1, h, i);
    }
  }

  lemma InUseStep<F>(files: map<int, F>, e: Event<F>, files': map<int, F>, h: int)
    requires Happens(files, e, files')
    ensures h in files' <==> if e.handle == h then e.Stored? else h in files
  {
  }

  /** In a table that starts empty a handle is in use exactly if it was stored and not freed since. */
  lemma {:induction false} InUseExactly<F>(tables: seq<map<int, F>>, es: seq<Event<F>>, n: nat, h: int)
    requires IsRun(tables, es) && n <= |es| && |tables[0]| == 0
    ensures h in tables[n] <==> LastStores(es, n, h)
  {
    if n > 0 {
      InUseExactly(tables, es, n - 1, h);
      assert HappensAt(tables, es, n - 1);
      InUseStep(tables[n - 1], es[n - 1], tables[n], h);
      LastStoresStep(es, n, h);
    }
  }

  // ---------- File systems ----------

  class FileSystemTable<F> {
    var slots: seq<Option<F>>

    constructor ()
      ensures slots == []
    {
      slots := [];
    }

    /** The first slot without a file system, or else a new one. */
    method Store(fs: F) returns (slot: nat)
      modifies this
      ensures forall i :: 0 <= i < slot ==> i < |old(slots)| && old(slots)[i].Some?
      ensures slot < |old(slots)| ==> old(slots)[slot].None? && slots == old(slots)[slot := Some(fs)]
      ensures slot >= |old(slots)| ==> slot == |old(slots)| && slots == old(slots) + [Some(fs)]
    {
      slot := 0;
      while slot < |slots|
        invariant slot <= |slots| && slots == old(slots)
        invariant forall i :: 0 <= i < slot ==> slots[i].Some?
      {
        if slots[slot].None? {
          slots := slots[slot := Some(fs)];
          return;
        }
        slot := slot + 1;
      }
      slots := slots + [Some(fs)];
    }

    method Free(slot: nat)
      modifies this
      ensures slots == if slot < |old(slots)| then old(slots)[slot := None] else old(slots)
    {
      if slot < |slots| {
        slots := slots[slot := None];
      }
    }
  }
}

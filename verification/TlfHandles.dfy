/** The handle of a top-level folder: who may read and write it, including people known only by a social assertion
    (libkbfs/bare_tlf_handle.go). */
module TlfHandles {
  import opened Outcomes
  import opened Collections
  import opened SortedLists

  type UID = nat
  type Assertion = nat

  const PUBLIC_UID: UID := 1

  datatype Handle = Handle(writers: seq<UID>, readers: seq<UID>,
                           unresolvedWriters: seq<Assertion>, unresolvedReaders: seq<Assertion>,
                           conflict: Option<string>, finalized: Option<string>)

  predicate IsPublic(h: Handle) {
    |h.readers| == 1 && h.readers[0] == PUBLIC_UID
  }

  predicate IsWriter(h: Handle, u: UID) {
    u in h.writers
  }

  predicate IsReader(h: Handle, u: UID) {
    IsPublic(h) || u in h.readers || IsWriter(h, u)
  }

  // ---------- Making a handle ----------

  predicate CanMake(writers: seq<UID>, readers: seq<UID>, unresolvedReaders: seq<Assertion>) {
    |writers| > 0 && PUBLIC_UID !in writers && (|readers| + |unresolvedReaders| > 1 ==> PUBLIC_UID !in readers)
  }

  /** A handle as made: it is public exactly if the public user is among its readers. */
  predicate Made(h: Handle) {
    CanMake(h.writers, h.readers, h.unresolvedReaders)
  }

  method Contains(users: seq<UID>, user: UID) returns (r: bool)
    ensures r == (user in users)
  {
    var i := 0;
    while i < |users|
      invariant i <= |users| && user !in users[..i]
    {
      if users[i] == user {
        return true;
      }
      i := i + 1;
    }
    return false;
  }

  method MakeHandle(writers: seq<UID>, readers: seq<UID>, unresolvedWriters: seq<Assertion>,
                    unresolvedReaders: seq<Assertion>, conflict: Option<string>, finalized: Option<string>)
    returns (r: Result<Handle>)
    ensures r.Ok? <==> CanMake(writers, readers, unresolvedReaders)
    ensures r.Ok? ==>
              var h := r.value;
              && Made(h) && h.conflict == conflict && h.finalized == finalized
              && NonDecreasing(h.writers) && multiset(h.writers) == multiset(writers)
              && NonDecreasing(h.readers) && multiset(h.readers) == multiset(readers)
              && NonDecreasing(h.unresolvedWriters) && multiset(h.unresolvedWriters) == multiset(unresolvedWriters)
              && NonDecreasing(h.unresolvedReaders) && multiset(h.unresolvedReaders) == multiset(unresolvedReaders)
  {
    if |writers| == 0 {
      return Err;
    }
    var found := Contains(writers, PUBLIC_UID);
    if found {
      return Err;
    }
    if |readers| + |unresolvedReaders| > 1 {
      found := Contains(readers, PUBLIC_UID);
      if found {
        return Err;
      }
    }
    var ws := SortCopy(writers);
    var rs := SortCopy(readers);
    var uws := SortCopy(unresolvedWriters);
    var urs := SortCopy(unresolvedReaders);
    assert PUBLIC_UID in Elements(ws) <==> PUBLIC_UID in Elements(writers);
    assert PUBLIC_UID in Elements(rs) <==> PUBLIC_UID in Elements(readers);
    return Ok(Handle(ws, rs, uws, urs, conflict, finalized));
  }

  method SortCopy(s: seq<nat>) returns (r: seq<nat>)
    ensures NonDecreasing(r) && multiset(r) == multiset(s) && |r| == |s| && Elements(r) == Elements(s)
  {
    r := SortList(s);
    SortIs(s, |s|);
    assert s[..|s|] == s;
    MultisetAndElements(r, s);
  }

  // ---------- Resolving assertions ----------

  type Batch = map<Assertion, UID>

  /** The users that the batch finds for some of the assertions. */
  function Found(batch: Batch, unresolved: seq<Assertion>): set<UID> {
    set a | a in unresolved && a in batch :: batch[a]
  }

  function Left(batch: Batch, unresolved: seq<Assertion>): set<Assertion> {
    set a | a in unresolved && a !in batch
  }

  predicate IsListOf(s: seq<nat>, elements: set<nat>) {
    Increasing(s) && Elements(s) == elements
  }

  /** Nothing is touched in these cases, not even repetitions in the lists. */
  predicate Unchanged(h: Handle, batch: Batch) {
    |batch| == 0 || (|h.unresolvedWriters| == 0 && |h.unresolvedReaders| == 0) || h.finalized.Some?
  }

  function Writers(h: Handle, batch: Batch): set<UID> {
    Elements(h.writers) + Found(batch, h.unresolvedWriters)
  }

  function Readers(h: Handle, batch: Batch): set<UID> {
    Elements(h.readers) + Found(batch, h.unresolvedReaders) - Writers(h, batch)
  }

  /** The handle after resolving the assertions of the batch. */
  predicate Resolved(h: Handle, batch: Batch, h': Handle) {
    if Unchanged(h, batch) then h' == h
    else
      && IsListOf(h'.writers, Writers(h, batch)) && IsListOf(h'.readers, Readers(h, batch))
      && IsListOf(h'.unresolvedWriters, Left(batch, h.unresolvedWriters))
      && IsListOf(h'.unresolvedReaders, Left(batch, h.unresolvedReaders))
      && h'.conflict == h.conflict && h'.finalized == h.finalized
  }

  // ---------- Confluence ----------

  /** The batches find the same user for an assertion that both have. */
  predicate Agree(a: Batch, b: Batch) {
    forall x :: x in a && x in b ==> a[x] == b[x]
  }

  /** There is at most one resolved handle. */
  lemma ResolvedUnique(h: Handle, batch: Batch, h1: Handle, h2: Handle)
    requires Resolved(h, batch, h1) && Resolved(h, batch, h2)
    ensures h1 == h2
  {
    if !Unchanged(h, batch) {
      IncreasingUnique(h1.writers, h2.writers);
      IncreasingUnique(h1.readers, h2.readers);
      IncreasingUnique(h1.unresolvedWriters, h2.unresolvedWriters);
      IncreasingUnique(h1.unresolvedReaders, h2.unresolvedReaders);
    }
  }

  lemma FoundInTwo(a: Batch, b: Batch, unresolved: seq<Assertion>, left: seq<Assertion>)
    requires Agree(a, b) && Elements(left) == Left(a, unresolved)
    ensures Found(a + b, unresolved) == Found(a, unresolved) + Found(b, left)
    ensures Left(a + b, unresolved) == Left(b, left)
  {
    forall x
      ensures x in left <==> x in unresolved && x !in a
    {
      assert x in left <==> x in Elements(left);
    }
    forall u | u in Found(a + b, unresolved)
      ensures u in Found(a, unresolved) + Found(b, left)
    {
      var x :| x in unresolved && x in a + b && (a + b)[x] == u;
      assert x in a ==> a[x] == u;
    }
    forall u | u in Found(a, unresolved)
      ensures u in Found(a + b, unresolved)
    {
      var x :| x in unresolved && x in a && a[x] == u;
      assert x in a + b && (a + b)[x] == u;
    }
    forall u | u in Found(b, left)
      ensures u in Found(a + b, unresolved)
    {
      var x :| x in left && x in b && b[x] == u;
      assert x in a + b && (a + b)[x] == u;
    }
  }

  lemma ElementsAreEmpty(s: seq<nat>)
    ensures Elements(s) == {} <==> |s| == 0
  {
    if |s| > 0 {
      assert s[0] in Elements(s);
    }
  }

  /** If nothing is left, the second batch has nothing to add. */
  lemma NothingLeft(a: Batch, b: Batch, unresolved: seq<Assertion>, left: seq<Assertion>)
    requires Agree(a, b) && Elements(left) == Left(a, unresolved) && |left| == 0
    ensures Found(a + b, unresolved) == Found(a, unresolved) && Left(a + b, unresolved) == Left(a, unresolved)
  {
    FoundInTwo(a, b, unresolved, left);
  }

  lemma ResolvedBoth(h: Handle, a: Batch, b: Batch, h1: Handle, h2: Handle)
    requires Agree(a, b) && Resolved(h, a, h1) && Resolved(h1, b, h2)
    ensures Resolved(h, a + b, h2)
  {
    if |a| == 0 {
      SameMap(a + b, b);
    } else if |b| == 0 {
      SameMap(a + b, a);
    } else {
      SomeInSum(a, b);
      if !Unchanged(h, a) {
        ResolvedInTwo(h, a, b, h1, h2);
      }
    }
  }

  /** Resolving one batch and then another gives the same handle as resolving both at once. */
  lemma Confluent(h: Handle, a: Batch, b: Batch, h1: Handle, h2: Handle, both: Handle)
    requires Agree(a, b) && Resolved(h, a, h1) && Resolved(h1, b, h2) && Resolved(h, a + b, both)
    ensures h2 == both
  {
    ResolvedBoth(h, a, b, h1, h2);
    ResolvedUnique(h, a + b, h2, both);
  }

  lemma SomeInSum(a: Batch, b: Batch)
    requires |a| > 0
    ensures |a + b| > 0
  {
  }

  lemma ResolvedInTwo(h: Handle, a: Batch, b: Batch, h1: Handle, h2: Handle)
    requires Agree(a, b) && !Unchanged(h, a) && |b| > 0 && |a + b| > 0
    requires Resolved(h, a, h1) && Resolved(h1, b, h2)
    ensures Resolved(h, a + b, h2)
  {
    FoundInTwo(a, b, h.unresolvedWriters, h1.unresolvedWriters);
    FoundInTwo(a, b, h.unresolvedReaders, h1.unresolvedReaders);
    if Unchanged(h1, b) {
      NothingLeft(a, b, h.unresolvedWriters, h1.unresolvedWriters);
      NothingLeft(a, b, h.unresolvedReaders, h1.unresolvedReaders);
    } else {
      assert Writers(h, a + b) == Writers(h1, b);
      assert Readers(h, a + b) == Readers(h1, b);
    }
  }

  // ---------- Access ----------

  /** Nobody who could read or write cannot any more. */
  ghost predicate AccessKept(h: Handle, h': Handle) {
    forall u :: (IsWriter(h, u) ==> IsWriter(h', u)) && (IsReader(h, u) ==> IsReader(h', u))
  }

  /** Some unresolved writer of a public folder turns out to be the public user. */
  predicate LosesPublic(h: Handle, batch: Batch) {
    IsPublic(h) && h.finalized.None? && PUBLIC_UID in Found(batch, h.unresolvedWriters)
  }

  lemma SomeoneElse(s: seq<UID>) returns (u: UID)
    ensures u !in s
  {
    u := 0;
    var i := 0;
    while i < |s|
      invariant i <= |s| && forall j :: 0 <= j < i ==> s[j] < u
    {
      u := if s[i] >= u then s[i] + 1 else u;
      i := i + 1;
    }
  }

  /** Resolving assertions of a handle as made keeps everybody's access, except in exactly that case. */
  lemma AccessIsKept(h: Handle, batch: Batch, h': Handle)
    requires Made(h) && Resolved(h, batch, h')
    ensures AccessKept(h, h') <==> !LosesPublic(h, batch)
  {
    if !Unchanged(h, batch) {
      assert forall u :: u in h'.writers <==> u in Elements(h'.writers);
      assert forall u :: u in h'.readers <==> u in Elements(h'.readers);
      assert forall u :: u in h.writers <==> u in Elements(h.writers);
      assert forall u :: u in h.readers <==> u in Elements(h.readers);
      if IsPublic(h) {
        PublicReaders(h, batch, h');
        var u := SomeoneElse(h'.writers);
        assert IsReader(h, u);
        assert LosesPublic(h, batch) ==> !IsReader(h', u);
      } else {
        assert AccessKept(h, h');
      }
    } else {
      assert |batch| == 0 ==> Found(batch, h.unresolvedWriters) == {};
    }
  }

  /** Writer 2, everybody a reader, and an assertion that turns out to be everybody: user 3 is shut out. */
  lemma PublicWriterShutsOut(h': Handle)
    requires Resolved(Handle([2], [PUBLIC_UID], [7], [], None, None), map[7 := PUBLIC_UID], h')
    ensures var h := Handle([2], [PUBLIC_UID], [7], [], None, None); Made(h) && IsReader(h, 3) && !IsReader(h', 3)
  {
    var h, batch := Handle([2], [PUBLIC_UID], [7], [], None, None), map[7 := PUBLIC_UID];
    assert batch[7] == PUBLIC_UID && 7 in h.unresolvedWriters;
    assert LosesPublic(h, batch);
    PublicReaders(h, batch, h');
    assert Elements(h'.writers) == {2, PUBLIC_UID};
    assert 3 in h'.writers <==> 3 in Elements(h'.writers);
  }

  lemma PublicReaders(h: Handle, batch: Batch, h': Handle)
    requires Made(h) && IsPublic(h) && !Unchanged(h, batch) && Resolved(h, batch, h')
    ensures h'.readers == if LosesPublic(h, batch) then [] else [PUBLIC_UID]
  {
    assert h.readers == [PUBLIC_UID];
    assert Elements(h.readers) == {PUBLIC_UID};
    assert Found(batch, h.unresolvedReaders) == {};
    assert PUBLIC_UID !in Elements(h.writers);
    IncreasingUnique(h'.readers, if LosesPublic(h, batch) then [] else [PUBLIC_UID]);
  }

  // ---------- Runs of batches ----------

  /** The handles that a run of batches goes through. */
  predicate IsRun(hs: seq<Handle>, batches: seq<Batch>) {
    |hs| == |batches| + 1 && forall i :: 0 <= i < |batches| ==> ResolvedAt(hs, batches, i)
  }

  predicate ResolvedAt(hs: seq<Handle>, batches: seq<Batch>, i: nat) {
    i < |batches| && i + 1 < |hs| && Resolved(hs[i], batches[i], hs[i + 1])
  }

  lemma RunPrefix(hs: seq<Handle>, batches: seq<Batch>, n: nat)
    requires IsRun(hs, batches) && n <= |batches|
    ensures IsRun(hs[..n + 1], batches[..n])
  {
    var hs', batches' := hs[..n + 1], batches[..n];
    forall i | 0 <= i < n
      ensures ResolvedAt(hs', batches', i)
    {
      assert ResolvedAt(hs, batches, i);
    }
  }

  predicate NoPublic(batch: Batch) {
    forall a :: a in batch ==> batch[a] != PUBLIC_UID
  }

  lemma StaysMade(h: Handle, batch: Batch, h': Handle)
    requires Made(h) && NoPublic(batch) && Resolved(h, batch, h')
    ensures Made(h') && !LosesPublic(h, batch)
  {
    assert PUBLIC_UID !in Found(batch, h.unresolvedWriters);
    if !Unchanged(h, batch) {
      assert PUBLIC_UID !in Elements(h.writers) && PUBLIC_UID !in Writers(h, batch);
      assert h.writers[0] in Elements(h'.writers);
      assert PUBLIC_UID in h'.writers ==> PUBLIC_UID in Elements(h'.writers);
      assert PUBLIC_UID in h'.readers ==> PUBLIC_UID in Elements(h'.readers);
      if PUBLIC_UID in h'.readers {
        assert PUBLIC_UID in Elements(h.readers);
        PublicReaders(h, batch, h');
        assert Left(batch, h.unresolvedReaders) == {};
        ElementsAreEmpty(h'.unresolvedReaders);
      }
    }
  }

  /** Over any run of batches that never find the public user, nobody loses access. */
  lemma {:induction false} RunKeepsAccess(hs: seq<Handle>, batches: seq<Batch>)
    requires IsRun(hs, batches) && Made(hs[0]) && forall i :: 0 <= i < |batches| ==> NoPublic(batches[i])
    ensures Made(hs[|batches|]) && AccessKept(hs[0], hs[|batches|])
  {
    var n := |batches|;
    if n > 0 {
      RunPrefix(hs, batches, n - 1);
      RunKeepsAccess(hs[..n], batches[..n - 1]);
      assert ResolvedAt(hs, batches, n - 1);
      StaysMade(hs[n - 1], batches[n - 1], hs[n]);
      AccessIsKept(hs[n - 1], batches[n - 1], hs[n]);
    }
  }

  /** No run touches the conflict or finalized marks of a folder, and a finalized one it does not touch at all. */
  lemma {:induction false} RunKeepsMarks(hs: seq<Handle>, batches: seq<Batch>, n: nat)
    requires IsRun(hs, batches) && n <= |batches|
    ensures hs[n].conflict == hs[0].conflict && hs[n].finalized == hs[0].finalized
    ensures hs[0].finalized.Some? ==> hs[n] == hs[0]
  {
    if n > 0 {
      RunKeepsMarks(hs, batches, n - 1);
      assert ResolvedAt(hs, batches, n - 1);
    }
  }

  function Merged(batches: seq<Batch>, n: nat): Batch
    requires n <= |batches|
  {
    if n == 0 then map[] else Merged(batches, n - 1) + batches[n - 1]
  }

  predicate AllAgree(batches: seq<Batch>) {
    forall i, j :: 0 <= i < j < |batches| ==> Agree(batches[i], batches[j])
  }

  lemma {:induction false} MergedAgrees(batches: seq<Batch>, n: nat, k: nat)
    requires n <= k < |batches| && AllAgree(batches)
    ensures Agree(Merged(batches, n), batches[k])
  {
    if n > 0 {
      MergedAgrees(batches, n - 1, k);
      assert Agree(batches[n - 1], batches[k]);
    }
  }

  lemma ResolvedNothing(h: Handle, batch: Batch)
    requires |batch| == 0
    ensures Resolved(h, batch, h)
  {
  }

  /** A run of batches that agree ends where resolving all of them at once ends. */
  lemma {:induction false} RunConfluent(hs: seq<Handle>, batches: seq<Batch>, n: nat)
    requires IsRun(hs, batches) && AllAgree(batches) && n <= |batches|
    ensures Resolved(hs[0], Merged(batches, n), hs[n])
  {
    if n == 0 {
      ResolvedNothing(hs[0], Merged(batches, n));
    } else {
      RunConfluent(hs, batches, n - 1);
      MergedAgrees(batches, n - 1, n - 1);
      assert ResolvedAt(hs, batches, n - 1);
      ResolvedBoth(hs[0], Merged(batches, n - 1), batches[n - 1], hs[n - 1], hs[n]);
    }
  }

  // ---------- Carrying it out ----------

  /** Go through the batch in any order. */
  method ResolveList(batch: Batch, unresolved: seq<Assertion>, resolved: seq<UID>)
    returns (users: set<UID>, left: set<Assertion>)
    ensures users == Elements(resolved) + Found(batch, unresolved) && left == Left(batch, unresolved)
  {
    users, left := Elements(resolved), Elements(unresolved);
    var todo := batch.Keys;
    while todo != {}
      invariant todo <= batch.Keys
      invariant left == set a | a in unresolved && (a !in batch || a in todo)
      invariant users == Elements(resolved) + set a | a in unresolved && a in batch && a !in todo :: batch[a]
      decreases todo
    {
      var a := AnyOf(todo);
      if a in left {
        users := users + {batch[a]};
        left := left - {a};
      }
      todo := todo - {a};
    }
  }

  /** The elements in any order, and then sorted. */
  method ToSortedList(s: set<nat>) returns (list: seq<nat>)
    ensures IsListOf(list, s)
  {
    var slice: seq<nat> := [];
    var todo := s;
    while todo != {}
      invariant todo <= s && NoRepeats(slice) && Elements(slice) == s - todo
      decreases todo
    {
      var x := AnyOf(todo);
      assert x !in Elements(slice);
      assert Elements(slice + [x]) == Elements(slice) + {x};
      slice := slice + [x];
      todo := todo - {x};
    }
    list := SortList(slice);
    SortNoRepeats(slice);
  }

  method ResolveAssertions(h: Handle, batch: Batch) returns (h': Handle)
    ensures Resolved(h, batch, h')
  {
    if |batch| == 0 || (|h.unresolvedWriters| == 0 && |h.unresolvedReaders| == 0) || h.finalized.Some? {
      return h;
    }
    var writers, leftWriters := ResolveList(batch, h.unresolvedWriters, h.writers);
    var readers, leftReaders := ResolveList(batch, h.unresolvedReaders, h.readers);
    var ws := ToSortedList(writers);
    var rs := ToSortedList(readers - writers);
    var uws := ToSortedList(leftWriters);
    var urs := ToSortedList(leftReaders);
    return Handle(ws, rs, uws, urs, h.conflict, h.finalized);
  }
}

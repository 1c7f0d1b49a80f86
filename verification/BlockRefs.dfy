/** The references to one block, as both block servers keep them (libkbfs/bserver_memory.go). */
module BlockRefs {
  import opened Outcomes

  type BlockID = int
  type Bytes = seq<int>
  type ServerHalf = int
  type Nonce = int

  const ZERO_NONCE: Nonce := 0

  /** Who may use a reference to a block.  A writer of 0 means the creator. */
  datatype Context = Context(creator: int, writer: int, nonce: Nonce)

  function GetWriter(c: Context): int {
    if c.writer == 0 then c.creator else c.writer
  }

  datatype Status = Live | Archived

  datatype RefEntry = RefEntry(status: Status, context: Context)

  type RefMap = map<Nonce, RefEntry>

  datatype Failure = NonExistent | AllArchived | Refused | Shutdown | JournalFailed

  datatype Reply = Done | Count(n: nat) | Data(buf: Bytes, half: ServerHalf) | Failed(why: Failure)

  predicate HasLive(refs: RefMap) {
    exists n :: n in refs && refs[n].status == Live
  }

  /** A reference that is already there must be given the same context. */
  predicate Fits(refs: RefMap, c: Context) {
    c.nonce in refs ==> refs[c.nonce].context == c
  }

  function With(refs: RefMap, c: Context, status: Status): RefMap {
    refs[c.nonce := RefEntry(status, c)]
  }

  function Without(refs: RefMap, n: Nonce): RefMap {
    map m | m in refs && m != n :: refs[m]
  }

  function Statuses(refs: RefMap): map<Nonce, Status> {
    map n | n in refs :: refs[n].status
  }

  /** A new block must be written under the zero nonce by its creator, and its ID must be the hash of its data. */
  predicate ValidPut(hash: Bytes -> BlockID, id: BlockID, c: Context, buf: Bytes) {
    c.creator == GetWriter(c) && c.nonce == ZERO_NONCE && hash(buf) == id
  }

  /** A put is made by the creator, on their own behalf, under no nonce, with the contents the block is named after. */
  lemma ValidPutIs(hash: Bytes -> BlockID, id: BlockID, c: Context, buf: Bytes)
    ensures ValidPut(hash, id, c, buf) <==>
            (c.writer == 0 || c.writer == c.creator) && c.nonce == ZERO_NONCE && id == hash(buf)
  {
  }

  // ---------- Lists of references ----------

  /** What a list of contexts is for. */
  datatype Action = Drop | Archive

  /** Why a context of the list stops the call, if it does.  Dropping a reference that is gone is not an error. */
  function Obstacle(a: Action, refs: RefMap, c: Context): Option<Failure> {
    if c.nonce !in refs then (if a.Archive? then Some(NonExistent) else None)
    else if refs[c.nonce].context != c then Some(Refused)
    else None
  }

  function Act(a: Action, refs: RefMap, c: Context): RefMap {
    match a
    case Drop => Without(refs, c.nonce)
    case Archive => With(refs, c, Archived)
  }

  datatype Batch = Batch(refs: RefMap, failure: Option<Failure>)

  /** The contexts are taken one by one; the first obstacle ends the call and what was done before it stays done. */
  function Each(a: Action, refs: RefMap, cs: seq<Context>): Batch {
    if cs == [] then Batch(refs, None)
    else
      var f := Obstacle(a, refs, cs[0]);
      if f.Some? then Batch(refs, f) else Each(a, Act(a, refs, cs[0]), cs[1..])
  }

  /** Some reference is changed before the context that ends the call. */
  predicate StopsMidway(a: Action, refs: RefMap, cs: seq<Context>) {
    && cs != []
    && Obstacle(a, refs, cs[0]).None?
    && var refs' := Act(a, refs, cs[0]);
       (Pending(a, refs, cs[0].nonce) && Each(a, refs', cs[1..]).failure.Some?) || StopsMidway(a, refs', cs[1..])
  }

  /** The action would still make a difference to the reference. */
  predicate Pending(a: Action, refs: RefMap, n: Nonce) {
    n in refs && (a.Archive? ==> refs[n].status == Live)
  }

  lemma {:induction false} NotPendingAgain(a: Action, refs: RefMap, cs: seq<Context>, n: Nonce)
    requires !Pending(a, refs, n)
    ensures !Pending(a, Each(a, refs, cs).refs, n)
  {
    if cs != [] && Obstacle(a, refs, cs[0]).None? {
      NotPendingAgain(a, Act(a, refs, cs[0]), cs[1..], n);
    }
  }

  lemma NoChange(a: Action, refs: RefMap, c: Context)
    requires Obstacle(a, refs, c).None? && !Pending(a, refs, c.nonce)
    ensures Act(a, refs, c) == refs
  {
  }

  /** A call that fails has changed nothing unless it stopped midway. */
  lemma {:induction false} FailureChanges(a: Action, refs: RefMap, cs: seq<Context>)
    ensures var b := Each(a, refs, cs); b.failure.Some? && b.refs != refs <==> StopsMidway(a, refs, cs)
  {
    if cs != [] && Obstacle(a, refs, cs[0]).None? {
      var n, refs' := cs[0].nonce, Act(a, refs, cs[0]);
      FailureChanges(a, refs', cs[1..]);
      if Pending(a, refs, n) {
        NotPendingAgain(a, refs', cs[1..], n);
      } else {
        NoChange(a, refs, cs[0]);
      }
    }
  }

  /** Only a list that names every reference can leave none, and then it does not fail. */
  lemma {:induction false} FailureLeavesSome(a: Action, refs: RefMap, cs: seq<Context>)
    requires refs != map[] && Each(a, refs, cs).failure.Some?
    ensures Each(a, refs, cs).refs != map[]
  {
    if Obstacle(a, refs, cs[0]).None? {
      var refs' := Act(a, refs, cs[0]);
      if refs' != map[] {
        FailureLeavesSome(a, refs', cs[1..]);
      } else {
        DropFromNone(cs[1..]);
      }
    }
  }

  lemma {:induction false} DropFromNone(cs: seq<Context>)
    ensures Each(Drop, map[], cs) == Batch(map[], None)
  {
    if cs != [] {
      assert Act(Drop, map[], cs[0]) == map[];
      DropFromNone(cs[1..]);
    }
  }

  lemma {:induction false} ArchiveKeepsRefs(refs: RefMap, cs: seq<Context>)
    ensures forall n :: n in Each(Archive, refs, cs).refs <==> n in refs
  {
    if cs != [] && Obstacle(Archive, refs, cs[0]).None? {
      ArchiveKeepsRefs(Act(Archive, refs, cs[0]), cs[1..]);
    }
  }

  /** Some context of the list has the nonce. */
  predicate Names(cs: seq<Context>, n: Nonce) {
    cs != [] && (cs[0].nonce == n || Names(cs[1..], n))
  }

  /** A list that is carried out drops exactly the references it names. */
  lemma {:induction false} DropMeans(refs: RefMap, cs: seq<Context>, n: Nonce)
    requires Each(Drop, refs, cs).failure.None?
    ensures var refs' := Each(Drop, refs, cs).refs;
            && (n in refs' <==> n in refs && !Names(cs, n))
            && (n in refs' ==> refs'[n] == refs[n])
  {
    if cs != [] {
      DropMeans(Act(Drop, refs, cs[0]), cs[1..], n);
    }
  }

  /** A list that is carried out archives exactly the references it names, all of which there are, and keeps their
      contexts. */
  lemma {:induction false} ArchiveMeans(refs: RefMap, cs: seq<Context>, n: Nonce)
    requires Each(Archive, refs, cs).failure.None?
    ensures var refs' := Each(Archive, refs, cs).refs;
            && (n in refs' <==> n in refs) && (Names(cs, n) ==> n in refs)
            && (n in refs' ==> refs'[n] == if Names(cs, n) then RefEntry(Archived, refs[n].context) else refs[n])
  {
    if cs != [] {
      ArchiveMeans(Act(Archive, refs, cs[0]), cs[1..], n);
    }
  }

  // ---------- Lists that fail ----------

  /** How many contexts of the list are carried out. */
  function Reached(a: Action, refs: RefMap, cs: seq<Context>): (k: nat)
    ensures k <= |cs|
  {
    if cs == [] || Obstacle(a, refs, cs[0]).Some? then 0 else 1 + Reached(a, Act(a, refs, cs[0]), cs[1..])
  }

  /** Whether or not the list fails, exactly the references named by the contexts carried out are dropped or archived,
      and the call fails exactly if that is not the whole list, with the obstacle that came next. */
  lemma {:induction false} EachMeans(a: Action, refs: RefMap, cs: seq<Context>, n: Nonce)
    ensures var b, k := Each(a, refs, cs), Reached(a, refs, cs);
            && b.failure == (if k < |cs| then Obstacle(a, b.refs, cs[k]) else None)
            && (k < |cs| ==> b.failure.Some?)
            && (n in b.refs <==> n in refs && !(a.Drop? && Names(cs[..k], n)))
            && (Names(cs[..k], n) && a.Archive? ==> n in refs)
            && (n in b.refs ==> b.refs[n] == if Names(cs[..k], n) then RefEntry(Archived, refs[n].context) else refs[n])
  {
    if cs != [] && Obstacle(a, refs, cs[0]).None? {
      var k := Reached(a, refs, cs);
      EachMeans(a, Act(a, refs, cs[0]), cs[1..], n);
      assert cs[..k][1..] == cs[1..][..k - 1];
    }
  }

  /** Context i of the list is for a reference that is held under it, or for a removal that has nothing to do any
      more. */
  predicate Allowed(a: Action, refs: RefMap, cs: seq<Context>, i: nat)
    requires i < |cs|
  {
    var c := cs[i];
    if c.nonce in refs && !(a.Drop? && Names(cs[..i], c.nonce)) then refs[c.nonce].context == c else a.Drop?
  }

  /** A list is carried out exactly if every context of it is allowed. */
  lemma {:induction false} EachSucceeds(a: Action, refs: RefMap, cs: seq<Context>)
    ensures Each(a, refs, cs).failure.None? <==> forall i :: 0 <= i < |cs| ==> Allowed(a, refs, cs, i)
  {
    if cs != [] {
      assert Allowed(a, refs, cs, 0) <==> Obstacle(a, refs, cs[0]).None?;
      if Obstacle(a, refs, cs[0]).None? {
        var refs', rest := Act(a, refs, cs[0]), cs[1..];
        EachSucceeds(a, refs', rest);
        forall i | 0 < i < |cs|
          ensures Allowed(a, refs, cs, i) <==> Allowed(a, refs', rest, i - 1)
        {
          assert cs[..i][1..] == rest[..i - 1];
        }
        assert forall i :: 0 <= i < |rest| ==> (Allowed(a, refs', rest, i) <==> Allowed(a, refs, cs, i + 1));
      }
    }
  }

  // ---------- Adding a reference ----------

  /** A reference can be added: one of those there is live, and the nonce is free or held under the same context. */
  ghost predicate CanAdd(refs: RefMap, c: Context) {
    && (exists n :: n in refs && refs[n].status == Live)
    && (c.nonce in refs ==> refs[c.nonce].context == c)
  }

  /** All references are archived, or there are none. */
  ghost predicate NoneLive(refs: RefMap) {
    forall n :: n in refs ==> refs[n].status == Archived
  }

  /** After a list that names all references is archived, none is live. */
  lemma ArchiveAllLeavesNone(refs: RefMap, cs: seq<Context>)
    requires Each(Archive, refs, cs).failure.None? && forall n :: n in refs ==> Names(cs, n)
    ensures NoneLive(Each(Archive, refs, cs).refs)
  {
    forall n | n in Each(Archive, refs, cs).refs
      ensures Each(Archive, refs, cs).refs[n].status == Archived
    {
      ArchiveMeans(refs, cs, n);
    }
  }
}

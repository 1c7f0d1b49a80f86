/** The block server that keeps its blocks in memory (libkbfs/bserver_memory.go). */
module BlockServerMemory {
  import opened Outcomes
  import opened Collections
  import opened BlockRefs

  type TlfID = int

  datatype MemEntry = MemEntry(tlf: TlfID, buf: Bytes, half: ServerHalf, refs: RefMap)

  type Blocks = map<BlockID, MemEntry>

  datatype Answer = Answer(m: Blocks, reply: Reply)

  function Removed(m: Blocks, id: BlockID): Blocks {
    map i | i in m && i != id :: m[i]
  }

  function WithRefs(m: Blocks, id: BlockID, refs: RefMap): Blocks
    requires id in m
  {
    m[id := m[id].(refs := refs)]
  }

  /** Add a reference to a block that is there. */
  function PutRef(m: Blocks, id: BlockID, c: Context): Answer
    requires id in m
  {
    if Fits(m[id].refs, c) then Answer(WithRefs(m, id, With(m[id].refs, c, Live)), Done)
    else Answer(m, Failed(Refused))
  }

  /** Put, once the arguments are valid. */
  function Put(m: Blocks, id: BlockID, tlf: TlfID, c: Context, buf: Bytes, half: ServerHalf): Answer {
    if id !in m then Answer(m[id := MemEntry(tlf, buf, half, With(map[], c, Live))], Done)
    else if m[id].tlf != tlf || m[id].half != half then Answer(m, Failed(Refused))
    else PutRef(m, id, c)
  }

  function AddReference(m: Blocks, id: BlockID, tlf: TlfID, c: Context): Answer {
    if id !in m then Answer(m, Failed(NonExistent))
    else if m[id].tlf != tlf then Answer(m, Failed(Refused))
    else if !HasLive(m[id].refs) then Answer(m, Failed(AllArchived))
    else PutRef(m, id, c)
  }

  function RemoveReferences(m: Blocks, id: BlockID, tlf: TlfID, cs: seq<Context>): Answer {
    if id !in m then Answer(m, Count(0))
    else if m[id].tlf != tlf then Answer(m, Failed(Refused))
    else
      var b := Each(Drop, m[id].refs, cs);
      if b.failure.Some? then Answer(WithRefs(m, id, b.refs), Failed(b.failure.value))
      else Answer(if |b.refs| == 0 then Removed(m, id) else WithRefs(m, id, b.refs), Count(|b.refs|))
  }

  function ArchiveReferences(m: Blocks, id: BlockID, tlf: TlfID, cs: seq<Context>): Answer {
    if cs == [] then Answer(m, Done)
    else if id !in m then Answer(m, Failed(NonExistent))
    else if m[id].tlf != tlf then Answer(m, Failed(Refused))
    else
      var b := Each(Archive, m[id].refs, cs);
      Answer(WithRefs(m, id, b.refs), if b.failure.Some? then Failed(b.failure.value) else Done)
  }

  function Get(m: Blocks, id: BlockID, tlf: TlfID, c: Context): Reply {
    if id !in m then Failed(NonExistent)
    else if m[id].tlf != tlf then Failed(Refused)
    else if c.nonce !in m[id].refs then Failed(NonExistent)
    else if m[id].refs[c.nonce].context != c then Failed(Refused)
    else Data(m[id].buf, m[id].half)
  }

  function GetAll(m: Blocks, tlf: TlfID): map<BlockID, map<Nonce, Status>> {
    map id | id in m && m[id].tlf == tlf :: Statuses(m[id].refs)
  }

  // ---------- What a caller sees ----------

  /** A block that was put can be got with the same context: with the data it had if it was there before, which has the
      same hash, and always with the key half that was given.  No other block and no other reference changes. */
  lemma PutThenGet(m: Blocks, id: BlockID, tlf: TlfID, c: Context, buf: Bytes, half: ServerHalf)
    requires Put(m, id, tlf, c, buf, half).reply == Done
    ensures var m' := Put(m, id, tlf, c, buf, half).m;
            && Get(m', id, tlf, c) == Data(if id in m then m[id].buf else buf, half)
            && m'[id].refs[c.nonce].status == Live
            && (forall i, d: Context :: i != id || d.nonce != c.nonce ==> Get(m', i, tlf, d) == Get(m, i, tlf, d))
  {
  }

  /** A put of valid arguments fails, changing nothing, exactly if the block is there for another folder, with another
      key half, or with its nonce held under another context. */
  lemma PutExact(m: Blocks, id: BlockID, tlf: TlfID, c: Context, buf: Bytes, half: ServerHalf)
    ensures var a := Put(m, id, tlf, c, buf, half);
            && (a.reply == Done || (a.reply == Failed(Refused) && a.m == m))
            && (a.reply == Done <==>
                (id in m ==> m[id].tlf == tlf && m[id].half == half &&
                             (c.nonce in m[id].refs ==> m[id].refs[c.nonce].context == c)))
  {
  }

  /** A block is got exactly by a context that one of its references has, through its own folder; otherwise it is
      missing if there is no such block or, in the folder, no such reference. */
  lemma GetExact(m: Blocks, id: BlockID, tlf: TlfID, c: Context)
    ensures var r := Get(m, id, tlf, c);
            && (r.Data? <==> id in m && m[id].tlf == tlf && c.nonce in m[id].refs && m[id].refs[c.nonce].context == c)
            && (r.Data? ==> r == Data(m[id].buf, m[id].half))
            && (r == Failed(NonExistent) <==> id !in m || (m[id].tlf == tlf && c.nonce !in m[id].refs))
            && (r.Data? || r == Failed(NonExistent) || r == Failed(Refused))
  {
  }

  /** A reference that was added can be used like the one the block was put under. */
  lemma AddThenGet(m: Blocks, id: BlockID, tlf: TlfID, c: Context)
    requires AddReference(m, id, tlf, c).reply == Done
    ensures Get(AddReference(m, id, tlf, c).m, id, tlf, c) == Data(m[id].buf, m[id].half)
  {
  }

  /** A reference is added exactly if the block is there, in the folder, with a live reference, and the nonce is free or
      held under the same context; and the call says that all are archived exactly if no reference is live. */
  lemma AddExact(m: Blocks, id: BlockID, tlf: TlfID, c: Context)
    ensures var a := AddReference(m, id, tlf, c);
            && (a.reply == Done <==> id in m && m[id].tlf == tlf && CanAdd(m[id].refs, c))
            && (a.reply == Failed(AllArchived) <==> id in m && m[id].tlf == tlf && NoneLive(m[id].refs))
            && (a.reply != Done ==> a.m == m)
            && (a.reply == Done ==> c.nonce in a.m[id].refs && a.m[id].refs[c.nonce].status == Live)
  {
  }

  /** So none can be added after all references of a block are archived. */
  lemma ArchiveAllThenAdd(m: Blocks, id: BlockID, tlf: TlfID, cs: seq<Context>, c: Context)
    requires id in m && ArchiveReferences(m, id, tlf, cs).reply == Done
    requires cs != [] && forall n :: n in m[id].refs ==> Names(cs, n)
    ensures AddReference(ArchiveReferences(m, id, tlf, cs).m, id, tlf, c).reply == Failed(AllArchived)
  {
    ArchiveAllLeavesNone(m[id].refs, cs);
    AddExact(ArchiveReferences(m, id, tlf, cs).m, id, tlf, c);
  }

  /** After references were removed, none of them can be used any more, and all others can as before. */
  lemma RemoveThenGet(m: Blocks, id: BlockID, tlf: TlfID, cs: seq<Context>, d: Context)
    requires id in m && RemoveReferences(m, id, tlf, cs).reply.Count?
    ensures var m' := RemoveReferences(m, id, tlf, cs).m;
            Get(m', id, tlf, d) == if Names(cs, d.nonce) then Failed(NonExistent) else Get(m, id, tlf, d)
  {
    DropMeans(m[id].refs, cs, d.nonce);
  }

  /** Block id is still to do, or listed if it is the folder's. */
  ghost predicate ListedSo(m: Blocks, tlf: TlfID, todo: Blocks, res: map<BlockID, map<Nonce, Status>>, id: BlockID) {
    if id in todo then id in m && m[id] == todo[id] && id !in res
    else if id in m && m[id].tlf == tlf then id in res && res[id] == Statuses(m[id].refs)
    else id !in res
  }

  lemma AllListed(m: Blocks, tlf: TlfID, todo: Blocks, res: map<BlockID, map<Nonce, Status>>)
    requires |todo| == 0 && forall id :: ListedSo(m, tlf, todo, res, id)
    ensures res == GetAll(m, tlf)
  {
    var all := GetAll(m, tlf);
    forall id
      ensures id in res <==> id in all
      ensures id in res ==> res[id] == all[id]
    {
      assert ListedSo(m, tlf, todo, res, id);
    }
    SameMap(res, all);
  }

  class Server {
    const hash: Bytes -> BlockID
    var m: Blocks
    var isShutdown: bool

    constructor (hash: Bytes -> BlockID)
      ensures this.hash == hash && m == map[] && !isShutdown
    {
      this.hash := hash;
      m := map[];
      isShutdown := false;
    }

    method GetBlock(id: BlockID, tlf: TlfID, c: Context) returns (reply: Reply)
      ensures reply == if isShutdown then Failed(Shutdown) else Get(m, id, tlf, c)
    {
      if isShutdown {
        return Failed(Shutdown);
      }
      if id !in m {
        return Failed(NonExistent);
      }
      var entry := m[id];
      if entry.tlf != tlf {
        return Failed(Refused);
      }
      if c.nonce !in entry.refs {
        return Failed(NonExistent);
      }
      if entry.refs[c.nonce].context != c {
        return Failed(Refused);
      }
      return Data(entry.buf, entry.half);
    }

    method PutBlock(id: BlockID, tlf: TlfID, c: Context, buf: Bytes, half: ServerHalf) returns (reply: Reply)
      modifies this`m
      ensures Answer(m, reply) == if !ValidPut(hash, id, c, buf) then Answer(old(m), Failed(Refused))
                                  else if isShutdown then Answer(old(m), Failed(Shutdown))
                                  else Put(old(m), id, tlf, c, buf, half)
    {
      if !ValidPut(hash, id, c, buf) {
        return Failed(Refused);
      }
      if isShutdown {
        return Failed(Shutdown);
      }
      var refs: RefMap := map[];
      if id in m {
        if m[id].tlf != tlf || m[id].half != half {
          return Failed(Refused);
        }
        refs := m[id].refs;
        if !Fits(refs, c) {
          return Failed(Refused);
        }
        m := m[id := m[id].(refs := With(refs, c, Live))];
      } else {
        m := m[id := MemEntry(tlf, buf, half, refs)];
        m := m[id := m[id].(refs := With(refs, c, Live))];
      }
      return Done;
    }

    method AddBlockReference(id: BlockID, tlf: TlfID, c: Context) returns (reply: Reply)
      modifies this`m
      ensures Answer(m, reply) == if isShutdown then Answer(old(m), Failed(Shutdown))
                                  else AddReference(old(m), id, tlf, c)
    {
      if isShutdown {
        return Failed(Shutdown);
      }
      if id !in m {
        return Failed(NonExistent);
      }
      if m[id].tlf != tlf {
        return Failed(Refused);
      }
      if !HasLive(m[id].refs) {
        return Failed(AllArchived);
      }
      if !Fits(m[id].refs, c) {
        return Failed(Refused);
      }
      m := m[id := m[id].(refs := With(m[id].refs, c, Live))];
      return Done;
    }

    method RemoveBlockReferences(id: BlockID, tlf: TlfID, cs: seq<Context>) returns (reply: Reply)
      modifies this`m
      ensures Answer(m, reply) == if isShutdown then Answer(old(m), Failed(Shutdown))
                                  else RemoveReferences(old(m), id, tlf, cs)
    {
      if isShutdown {
        return Failed(Shutdown);
      }
      if id !in m {
        return Count(0);
      }
      if m[id].tlf != tlf {
        return Failed(Refused);
      }
      var refs := m[id].refs;
      var i := 0;
      while i < |cs|
        invariant i <= |cs| && m == old(m)
        invariant Each(Drop, m[id].refs, cs) == Each(Drop, refs, cs[i..])
      {
        var obstacle := Obstacle(Drop, refs, cs[i]);
        if obstacle.Some? {
          m := m[id := m[id].(refs := refs)];
          return Failed(obstacle.value);
        }
        assert cs[i..][1..] == cs[i + 1..];
        refs := Without(refs, cs[i].nonce);
        i := i + 1;
      }
      if |refs| == 0 {
        m := Removed(m, id);
      } else {
        m := m[id := m[id].(refs := refs)];
      }
      return Count(|refs|);
    }

    /** Each reference of the list is a call of its own. */
    method ArchiveBlockReferences(id: BlockID, tlf: TlfID, cs: seq<Context>) returns (reply: Reply)
      modifies this`m
      ensures Answer(m, reply) == if isShutdown && cs != [] then Answer(old(m), Failed(Shutdown))
                                  else ArchiveReferences(old(m), id, tlf, cs)
    {
      var i := 0;
      ghost var first := if id in m then m[id].refs else map[];
      while i < |cs|
        invariant i <= |cs| && (i > 0 ==> !isShutdown && id in old(m) && old(m)[id].tlf == tlf)
        invariant i == 0 ==> m == old(m)
        invariant id in old(m) <==> id in m
        invariant id in m ==> m == WithRefs(old(m), id, m[id].refs)
        invariant id !in m ==> m == old(m)
        invariant id in m ==> Each(Archive, first, cs) == Each(Archive, m[id].refs, cs[i..])
      {
        reply := ArchiveBlockReference(id, tlf, cs[i]);
        if reply.Failed? {
          return;
        }
        assert cs[i..][1..] == cs[i + 1..];
        i := i + 1;
      }
      return Done;
    }

    method ArchiveBlockReference(id: BlockID, tlf: TlfID, c: Context) returns (reply: Reply)
      modifies this`m
      ensures if isShutdown then m == old(m) && reply == Failed(Shutdown)
              else if id !in old(m) then m == old(m) && reply == Failed(NonExistent)
              else if old(m)[id].tlf != tlf then m == old(m) && reply == Failed(Refused)
              else
                var f := Obstacle(Archive, old(m)[id].refs, c);
                if f.Some? then m == old(m) && reply == Failed(f.value)
                else m == WithRefs(old(m), id, Act(Archive, old(m)[id].refs, c)) && reply == Done
    {
      if isShutdown {
        return Failed(Shutdown);
      }
      if id !in m {
        return Failed(NonExistent);
      }
      if m[id].tlf != tlf {
        return Failed(Refused);
      }
      var refs := m[id].refs;
      if c.nonce !in refs {
        return Failed(NonExistent);
      }
      if refs[c.nonce].context != c {
        return Failed(Refused);
      }
      m := m[id := m[id].(refs := With(refs, c, Archived))];
      return Done;
    }

    /** The statuses of all references of a folder. */
    method AllReferences(tlf: TlfID) returns (all: Option<map<BlockID, map<Nonce, Status>>>)
      ensures all == if isShutdown then None else Some(GetAll(m, tlf))
    {
      if isShutdown {
        return None;
      }
      var res: map<BlockID, map<Nonce, Status>> := map[];
      var todo := m;
      while |todo| != 0
        invariant forall id :: ListedSo(m, tlf, todo, res, id)
        decreases |todo|
      {
        var id := AnyOf(todo.Keys);
        ghost var res0, todo0 := res, todo;
        assert ListedSo(m, tlf, todo, res, id);
        if todo[id].tlf == tlf {
          res := res[id := Statuses(todo[id].refs)];
        }
        todo := todo - {id};
        forall x
          ensures ListedSo(m, tlf, todo, res, x)
        {
          assert ListedSo(m, tlf, todo0, res0, x);
        }
      }
      AllListed(m, tlf, todo, res);
      return Some(res);
    }

    method ShutDown()
      modifies this`isShutdown
      ensures isShutdown
    {
      isShutdown := true;
    }
  }
}

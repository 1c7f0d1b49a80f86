/** The journaled block server of a folder gives the same answers as the block server in memory. */
module BlockServers {
  import opened Outcomes
  import opened Collections
  import opened BlockRefs
  import M = BlockServerMemory
  import J = BlockJournal
  import D = DiskJournal

  /** The same call to the server in memory, for the folder. */
  function MemStep(hash: Bytes -> BlockID, m: M.Blocks, tlf: M.TlfID, call: J.Call): M.Answer {
    match call
    case PutCall(id, c, buf, half) =>
      if ValidPut(hash, id, c, buf) then M.Put(m, id, tlf, c, buf, half) else M.Answer(m, Failed(Refused))
    case AddCall(id, c) => M.AddReference(m, id, tlf, c)
    case RemoveCall(id, cs) => M.RemoveReferences(m, id, tlf, cs)
    case ArchiveCall(id, cs) => M.ArchiveReferences(m, id, tlf, cs)
    case GetCall(id, c) => M.Answer(m, M.Get(m, id, tlf, c))
  }

  /** Block id is the same in both: there with the same references, data and key half, or without references. */
  predicate SameBlock(hash: Bytes -> BlockID, m: M.Blocks, tlf: M.TlfID, s: J.State, id: BlockID) {
    if id in m then
      && m[id].tlf == tlf
      && id in s.refs && s.refs[id] == m[id].refs && m[id].refs != map[]
      && id in s.disk.data && s.disk.data[id] == m[id].buf && hash(m[id].buf) == id
      && id in s.disk.halves && s.disk.halves[id] == m[id].half
    else J.RefsOf(s.refs, id) == map[]
  }

  ghost predicate Related(hash: Bytes -> BlockID, m: M.Blocks, tlf: M.TlfID, s: J.State) {
    forall id :: SameBlock(hash, m, tlf, s, id)
  }

  /** Different data never has the same ID. */
  ghost predicate CollisionFree(hash: Bytes -> BlockID) {
    forall a, b :: hash(a) == hash(b) ==> a == b
  }

  /** A Put that changes the key half of a block that is referenced, but not under the zero nonce. */
  predicate ChangesHalf(m: M.Blocks, call: J.Call) {
    && call.PutCall? && call.id in m
    && ZERO_NONCE !in m[call.id].refs && m[call.id].half != call.half
  }

  /** The answers are the same, except that the journal says a block without references is archived where the server in
      memory says it does not exist. */
  predicate Agree(s: J.State, call: J.Call, mem: Reply, jrn: Reply) {
    if call.AddCall? && call.id in s.refs && s.refs[call.id] == map[] then
      mem == Failed(NonExistent) && jrn == Failed(AllArchived)
    else mem == jrn
  }

  /** The block files after writes of at most two files. */
  function Wrote(d: J.Disk, ws: seq<J.DiskWrite>): J.Disk {
    if |ws| == 0 then d else if |ws| == 1 then J.Do(d, ws[0]) else J.Do(J.Do(d, ws[0]), ws[1])
  }

  /** What a call to the journaled server does while its journal has room. */
  lemma StepIs(hash: Bytes -> BlockID, s: J.State, call: J.Call)
    requires D.Room(s.disk.journal)
    ensures var e, b := J.EffectOf(hash, s, call), J.Step(hash, s, call);
            var d := Wrote(s.disk, e.writes);
            b.reply == e.reply && b.s.refs == e.refs && b.s.disk.data == d.data && b.s.disk.halves == d.halves
  {
    var e := J.EffectOf(hash, s, call);
    J.EffectWrites(hash, s, call);
    J.WritesOf(hash, s, call);
    J.CarryIs(s.disk, e);
    if |e.writes| == 2 {
      J.TwoWrites(s.disk, e.writes);
    }
  }

  lemma OthersInEffect(hash: Bytes -> BlockID, s: J.State, call: J.Call, id: BlockID)
    requires id != call.id
    ensures var refs := J.EffectOf(hash, s, call).refs;
            (id in refs <==> id in s.refs) && (id in s.refs ==> refs[id] == s.refs[id])
  {
  }

  lemma OthersInJournal(hash: Bytes -> BlockID, s: J.State, call: J.Call, id: BlockID)
    requires D.Room(s.disk.journal) && id != call.id
    ensures var s' := J.Step(hash, s, call).s;
            && (id in s'.refs <==> id in s.refs)
            && (id in s.refs ==> s'.refs[id] == s.refs[id])
            && (id in s.disk.data ==> id in s'.disk.data && s'.disk.data[id] == s.disk.data[id])
            && (id in s.disk.halves ==> id in s'.disk.halves && s'.disk.halves[id] == s.disk.halves[id])
  {
    OthersInEffect(hash, s, call, id);
    StepIs(hash, s, call);
    J.WritesOf(hash, s, call);
  }

  lemma OthersInMemory(hash: Bytes -> BlockID, m: M.Blocks, tlf: M.TlfID, call: J.Call, id: BlockID)
    requires id != call.id
    ensures var m' := MemStep(hash, m, tlf, call).m;
            (id in m' <==> id in m) && (id in m ==> m'[id] == m[id])
  {
  }

  /** A call touches one block only. */
  lemma OthersStay(hash: Bytes -> BlockID, m: M.Blocks, tlf: M.TlfID, s: J.State, call: J.Call, id: BlockID)
    requires SameBlock(hash, m, tlf, s, id) && id != call.id && D.Room(s.disk.journal)
    ensures SameBlock(hash, MemStep(hash, m, tlf, call).m, tlf, J.Step(hash, s, call).s, id)
  {
    OthersInMemory(hash, m, tlf, call, id);
    OthersInJournal(hash, s, call, id);
  }

  lemma PutSame(hash: Bytes -> BlockID, m: M.Blocks, tlf: M.TlfID, s: J.State, call: J.Call)
    requires D.Room(s.disk.journal) && SameBlock(hash, m, tlf, s, call.id) && call.PutCall?
    requires ValidPut(hash, call.id, call.c, call.buf)
    requires call.id in m ==> m[call.id].buf == call.buf
    ensures var a, b := MemStep(hash, m, tlf, call), J.Step(hash, s, call);
            && (a.reply == b.reply <==> !ChangesHalf(m, call))
            && (a.reply == b.reply ==> SameBlock(hash, a.m, tlf, b.s, call.id))
  {
    StepIs(hash, s, call);
  }

  lemma AddSame(hash: Bytes -> BlockID, m: M.Blocks, tlf: M.TlfID, s: J.State, call: J.Call)
    requires D.Room(s.disk.journal) && SameBlock(hash, m, tlf, s, call.id) && call.AddCall?
    ensures var a, b := MemStep(hash, m, tlf, call), J.Step(hash, s, call);
            Agree(s, call, a.reply, b.reply) && SameBlock(hash, a.m, tlf, b.s, call.id)
  {
    StepIs(hash, s, call);
  }

  lemma RemoveSame(hash: Bytes -> BlockID, m: M.Blocks, tlf: M.TlfID, s: J.State, call: J.Call)
    requires D.Room(s.disk.journal) && SameBlock(hash, m, tlf, s, call.id) && call.RemoveCall?
    ensures var a, b := MemStep(hash, m, tlf, call), J.Step(hash, s, call);
            a.reply == b.reply && SameBlock(hash, a.m, tlf, b.s, call.id)
  {
    StepIs(hash, s, call);
    var refs := J.RefsOf(s.refs, call.id);
    if refs == map[] {
      DropFromNone(call.cs);
    } else if Each(Drop, refs, call.cs).failure.Some? {
      FailureLeavesSome(Drop, refs, call.cs);
    }
  }

  lemma ArchiveSame(hash: Bytes -> BlockID, m: M.Blocks, tlf: M.TlfID, s: J.State, call: J.Call)
    requires D.Room(s.disk.journal) && SameBlock(hash, m, tlf, s, call.id) && call.ArchiveCall?
    ensures var a, b := MemStep(hash, m, tlf, call), J.Step(hash, s, call);
            a.reply == b.reply && SameBlock(hash, a.m, tlf, b.s, call.id)
  {
    StepIs(hash, s, call);
    var refs := J.RefsOf(s.refs, call.id);
    ArchiveKeepsRefs(refs, call.cs);
    if call.cs == [] && call.id in m {
      assert M.WithRefs(m, call.id, refs)[call.id] == m[call.id];
    }
  }

  /** One call, on related servers: the answers agree and the servers stay related, whether or not the call succeeds,
      exactly when the call is not a Put that changes a key half. */
  lemma StepRefines(hash: Bytes -> BlockID, m: M.Blocks, tlf: M.TlfID, s: J.State, call: J.Call)
    requires CollisionFree(hash) && Related(hash, m, tlf, s) && D.Room(s.disk.journal)
    ensures var a, b := MemStep(hash, m, tlf, call), J.Step(hash, s, call);
            if call.PutCall? && ValidPut(hash, call.id, call.c, call.buf) && ChangesHalf(m, call) then
              a.reply.Failed? && b.reply == Done
            else
              Agree(s, call, a.reply, b.reply) && Related(hash, a.m, tlf, b.s)
  {
    assert SameBlock(hash, m, tlf, s, call.id);
    StepIs(hash, s, call);
    match call {
      case PutCall(_, _, _, _) =>
        if ValidPut(hash, call.id, call.c, call.buf) {
          PutSame(hash, m, tlf, s, call);
        }
      case AddCall(_, _) => AddSame(hash, m, tlf, s, call);
      case RemoveCall(_, _) => RemoveSame(hash, m, tlf, s, call);
      case ArchiveCall(_, _) => ArchiveSame(hash, m, tlf, s, call);
      case GetCall(_, _) =>
    }
    forall id | id != call.id
      ensures SameBlock(hash, MemStep(hash, m, tlf, call).m, tlf, J.Step(hash, s, call).s, id)
    {
      assert SameBlock(hash, m, tlf, s, id);
      OthersStay(hash, m, tlf, s, call, id);
    }
  }

  // ---------- Runs ----------

  function MemAfter(hash: Bytes -> BlockID, tlf: M.TlfID, calls: seq<J.Call>): M.Blocks {
    if calls == [] then map[]
    else MemStep(hash, MemAfter(hash, tlf, calls[..|calls| - 1]), tlf, calls[|calls| - 1]).m
  }

  /** No Put of the run changes a key half in that way. */
  predicate HalvesKept(hash: Bytes -> BlockID, tlf: M.TlfID, calls: seq<J.Call>) {
    calls == []
    || (HalvesKept(hash, tlf, calls[..|calls| - 1])
        && !ChangesHalf(MemAfter(hash, tlf, calls[..|calls| - 1]), calls[|calls| - 1]))
  }

  /** After any such run, failed calls included, the two servers are related. */
  lemma {:induction false} RunRefines(hash: Bytes -> BlockID, tlf: M.TlfID, calls: seq<J.Call>)
    requires CollisionFree(hash) && HalvesKept(hash, tlf, calls) && |calls| < D.ORDINALS
    ensures Related(hash, MemAfter(hash, tlf, calls), tlf, J.After(hash, calls))
  {
    if calls != [] {
      var p := calls[..|calls| - 1];
      RunRefines(hash, tlf, p);
      J.RunRoom(hash, p);
      StepRefines(hash, MemAfter(hash, tlf, p), tlf, J.After(hash, p), calls[|calls| - 1]);
    }
  }

  /** So after any such run they show the same references with the same statuses, and give agreeing answers to any next
      call, except to a Put that changes a key half, which only the journal accepts. */
  lemma RunAnswers(hash: Bytes -> BlockID, tlf: M.TlfID, calls: seq<J.Call>, call: J.Call)
    requires CollisionFree(hash) && HalvesKept(hash, tlf, calls) && |calls| < D.ORDINALS
    ensures var m, s := MemAfter(hash, tlf, calls), J.After(hash, calls);
            && M.GetAll(m, tlf) == J.GetAll(s.refs)
            && (ChangesHalf(m, call) || Agree(s, call, MemStep(hash, m, tlf, call).reply, J.Step(hash, s, call).reply))
  {
    RunRefines(hash, tlf, calls);
    J.RunRoom(hash, calls);
    StepRefines(hash, MemAfter(hash, tlf, calls), tlf, J.After(hash, calls), call);
    SameReferences(hash, MemAfter(hash, tlf, calls), tlf, J.After(hash, calls));
  }

  lemma SameReferences(hash: Bytes -> BlockID, m: M.Blocks, tlf: M.TlfID, s: J.State)
    requires Related(hash, m, tlf, s)
    ensures M.GetAll(m, tlf) == J.GetAll(s.refs)
  {
    var a, b := M.GetAll(m, tlf), J.GetAll(s.refs);
    forall id
      ensures id in a <==> id in b
      ensures id in a ==> a[id] == b[id]
    {
      assert SameBlock(hash, m, tlf, s, id);
    }
    SameMap(a, b);
  }

  lemma MemAfterMore(hash: Bytes -> BlockID, tlf: M.TlfID, calls: seq<J.Call>, call: J.Call)
    ensures MemAfter(hash, tlf, calls + [call]) == MemStep(hash, MemAfter(hash, tlf, calls), tlf, call).m
    ensures HalvesKept(hash, tlf, calls + [call])
            <==> HalvesKept(hash, tlf, calls) && !ChangesHalf(MemAfter(hash, tlf, calls), call)
  {
  }

  lemma LeftWithOther(hash: Bytes -> BlockID, tlf: M.TlfID, buf: Bytes)
    ensures var id, mine, other := hash(buf), Context(1, 0, 0), Context(1, 0, 7);
            var m1 := MemStep(hash, map[], tlf, J.PutCall(id, mine, buf, 1)).m;
            var m2 := MemStep(hash, m1, tlf, J.AddCall(id, other)).m;
            var m3 := MemStep(hash, m2, tlf, J.RemoveCall(id, [mine])).m;
            id in m3 && m3[id].half == 1 && ZERO_NONCE !in m3[id].refs
  {
    var id, mine, other := hash(buf), Context(1, 0, 0), Context(1, 0, 7);
    var m1 := MemStep(hash, map[], tlf, J.PutCall(id, mine, buf, 1)).m;
    assert m1[id].refs[0].status == Live;
    var m2 := MemStep(hash, m1, tlf, J.AddCall(id, other)).m;
    assert m2[id].refs == map[0 := RefEntry(Live, mine), 7 := RefEntry(Live, other)];
    var refs := Without(m2[id].refs, 0);
    assert 7 in refs && 0 !in refs;
    assert Each(Drop, m2[id].refs, [mine]) == Batch(refs, None);
  }

  lemma MemAfterFirst(hash: Bytes -> BlockID, tlf: M.TlfID, one: seq<J.Call>)
    requires |one| == 1
    ensures MemAfter(hash, tlf, one) == MemStep(hash, map[], tlf, one[0]).m
    ensures HalvesKept(hash, tlf, one) <==> !ChangesHalf(map[], one[0])
  {
    assert |one[..0]| == 0;
  }

  lemma MemAfterThree(hash: Bytes -> BlockID, tlf: M.TlfID, a: J.Call, b: J.Call, c: J.Call)
    ensures var m1 := MemStep(hash, map[], tlf, a).m;
            var m2 := MemStep(hash, m1, tlf, b).m;
            && MemAfter(hash, tlf, [a, b, c]) == MemStep(hash, m2, tlf, c).m
            && (HalvesKept(hash, tlf, [a, b, c])
                <==> !ChangesHalf(map[], a) && !ChangesHalf(m1, b) && !ChangesHalf(m2, c))
  {
    var one, two := [a], [a] + [b];
    MemAfterFirst(hash, tlf, one);
    MemAfterMore(hash, tlf, one, b);
    MemAfterMore(hash, tlf, two, c);
    assert two + [c] == [a, b, c];
  }

  /** Such a Put can come up: put a block, add a second reference, remove the first, put the block with another
      half. */
  lemma ChangedHalfCanComeUp(hash: Bytes -> BlockID, tlf: M.TlfID, buf: Bytes)
    ensures var id, mine, other := hash(buf), Context(1, 0, 0), Context(1, 0, 7);
            var calls := [J.PutCall(id, mine, buf, 1), J.AddCall(id, other), J.RemoveCall(id, [mine])];
            && ValidPut(hash, id, mine, buf)
            && HalvesKept(hash, tlf, calls)
            && ChangesHalf(MemAfter(hash, tlf, calls), J.PutCall(id, mine, buf, 2))
  {
    var id, mine, other := hash(buf), Context(1, 0, 0), Context(1, 0, 7);
    LeftWithOther(hash, tlf, buf);
    MemAfterThree(hash, tlf, J.PutCall(id, mine, buf, 1), J.AddCall(id, other), J.RemoveCall(id, [mine]));
  }
}

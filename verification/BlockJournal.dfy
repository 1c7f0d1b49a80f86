/** The block server operations of one folder, journaled on disk (libkbfs/bserver_tlf_journal.go). */
module BlockJournal {
  import opened Outcomes
  import opened Collections
  import opened BlockRefs
  import D = DiskJournal

  datatype OpName = BlockPut | AddRef | RemoveRefs | ArchiveRefs

  datatype Entry = Entry(op: OpName, id: BlockID, contexts: seq<Context>)

  type AllRefs = map<BlockID, RefMap>

  /** What is on disk: the two files of each block, and the files of the journal. */
  datatype Disk = Disk(data: map<BlockID, Bytes>, halves: map<BlockID, ServerHalf>, journal: D.Files<Entry>)

  datatype State = State(refs: AllRefs, disk: Disk)

  const EMPTY := State(map[], Disk(map[], map[], map[]))

  datatype Answer = Answer(s: State, reply: Reply)

  function RefsOf(refs: AllRefs, id: BlockID): RefMap {
    if id in refs then refs[id] else map[]
  }

  // ---------- Writes to disk ----------

  datatype DiskWrite =
    | WriteData(id: BlockID, buf: Bytes)
    | WriteHalf(id: BlockID, half: ServerHalf)
    | RemoveBlock(id: BlockID)
    | WriteJournal(w: D.Write<Entry>)

  function WithoutBlock<V>(m: map<BlockID, V>, id: BlockID): map<BlockID, V> {
    map i | i in m && i != id :: m[i]
  }

  function Do(d: Disk, w: DiskWrite): Disk {
    match w
    case WriteData(id, buf) => d.(data := d.data[id := buf])
    case WriteHalf(id, half) => d.(halves := d.halves[id := half])
    case RemoveBlock(id) => d.(data := WithoutBlock(d.data, id), halves := WithoutBlock(d.halves, id))
    case WriteJournal(w) => d.(journal := d.journal[w.name := w.data])
  }

  /** The disk after the first k writes. */
  function DoFirst(d: Disk, ws: seq<DiskWrite>, k: nat): Disk
    requires k <= |ws|
  {
    if k == 0 then d else Do(DoFirst(d, ws, k - 1), ws[k - 1])
  }

  lemma TwoWrites(d: Disk, ws: seq<DiskWrite>)
    requires |ws| == 2
    ensures DoFirst(d, ws, 1) == Do(d, ws[0]) && DoFirst(d, ws, 2) == Do(Do(d, ws[0]), ws[1])
  {
    assert DoFirst(d, ws, 1) == Do(d, ws[0]);
  }

  // ---------- The operations ----------

  /** What a call does: the new references in memory, the writes to block files, and the entry it then appends. */
  datatype Effect = Effect(refs: AllRefs, writes: seq<DiskWrite>, entry: Option<Entry>, reply: Reply)

  function Nothing(s: State, reply: Reply): Effect {
    Effect(s.refs, [], None, reply)
  }

  function Get(hash: Bytes -> BlockID, s: State, id: BlockID, c: Context): Reply {
    var f := Obstacle(Archive, RefsOf(s.refs, id), c);
    if f.Some? then Failed(f.value)
    else if id !in s.disk.data || id !in s.disk.halves then Failed(NonExistent)
    else if hash(s.disk.data[id]) != id then Failed(Refused)
    else Data(s.disk.data[id], s.disk.halves[id])
  }

  /** Record a live reference in memory and in the journal, after the writes. */
  function PutRef(s: State, writes: seq<DiskWrite>, op: OpName, id: BlockID, c: Context): Effect {
    if !Fits(RefsOf(s.refs, id), c) then Effect(s.refs, writes, None, Failed(Refused))
    else Effect(s.refs[id := With(RefsOf(s.refs, id), c, Live)], writes, Some(Entry(op, id, [c])), Done)
  }

  /** Put, once the arguments are valid. */
  function Put(hash: Bytes -> BlockID, s: State, id: BlockID, c: Context, buf: Bytes, half: ServerHalf): Effect {
    var existing := Get(hash, s, id, c);
    if existing.Failed? && existing != Failed(NonExistent) then Nothing(s, existing)
    else if existing.Data? && existing.half != half then Nothing(s, Failed(Refused))
    else PutRef(s, [WriteData(id, buf), WriteHalf(id, half)], BlockPut, id, c)
  }

  function AddReference(s: State, id: BlockID, c: Context): Effect {
    if id !in s.refs then Nothing(s, Failed(NonExistent))
    else if !HasLive(s.refs[id]) then Nothing(s, Failed(AllArchived))
    else PutRef(s, [], AddRef, id, c)
  }

  function RemoveReferences(s: State, id: BlockID, cs: seq<Context>): Effect {
    if id !in s.refs then Nothing(s, Count(0))
    else
      var b := Each(Drop, s.refs[id], cs);
      var refs := s.refs[id := b.refs];
      if b.failure.Some? then Effect(refs, [], None, Failed(b.failure.value))
      else Effect(refs, if |b.refs| == 0 then [RemoveBlock(id)] else [], Some(Entry(RemoveRefs, id, cs)),
                  Count(|b.refs|))
  }

  function ArchiveReferences(s: State, id: BlockID, cs: seq<Context>): Effect {
    var b := Each(Archive, RefsOf(s.refs, id), cs);
    var refs := if id in s.refs then s.refs[id := b.refs] else s.refs;
    if b.failure.Some? then Effect(refs, [], None, Failed(b.failure.value))
    else Effect(refs, [], Some(Entry(ArchiveRefs, id, cs)), Done)
  }

  function GetAll(refs: AllRefs): map<BlockID, map<Nonce, Status>> {
    map id | id in refs && |refs[id]| != 0 :: Statuses(refs[id])
  }

  datatype Call =
    | PutCall(id: BlockID, c: Context, buf: Bytes, half: ServerHalf)
    | AddCall(id: BlockID, c: Context)
    | RemoveCall(id: BlockID, cs: seq<Context>)
    | ArchiveCall(id: BlockID, cs: seq<Context>)
    | GetCall(id: BlockID, c: Context)

  function EffectOf(hash: Bytes -> BlockID, s: State, call: Call): Effect {
    match call
    case PutCall(id, c, buf, half) =>
      if ValidPut(hash, id, c, buf) then Put(hash, s, id, c, buf, half) else Nothing(s, Failed(Refused))
    case AddCall(id, c) => AddReference(s, id, c)
    case RemoveCall(id, cs) => RemoveReferences(s, id, cs)
    case ArchiveCall(id, cs) => ArchiveReferences(s, id, cs)
    case GetCall(id, c) => Nothing(s, Get(hash, s, id, c))
  }

  function JournalWrites(ws: seq<D.Write<Entry>>): (jws: seq<DiskWrite>)
    ensures |jws| == |ws|
  {
    seq(|ws|, i requires 0 <= i < |ws| => WriteJournal(ws[i]))
  }

  /** All writes of a call in order: block files first, and then those of the append. */
  function Writes(d: Disk, e: Effect): seq<DiskWrite> {
    e.writes + if e.entry.Some? then JournalWrites(D.AppendPlan(d.journal, None, e.entry.value).writes) else []
  }

  /** The effect carried out: an append that fails makes the call fail, though memory has changed. */
  function Carry(d: Disk, e: Effect): Answer {
    var ws := Writes(d, e);
    Answer(State(e.refs, DoFirst(d, ws, |ws|)),
           if e.entry.Some? && !D.AppendPlan(d.journal, None, e.entry.value).ok then Failed(JournalFailed)
           else e.reply)
  }

  function Step(hash: Bytes -> BlockID, s: State, call: Call): Answer {
    Carry(s.disk, EffectOf(hash, s, call))
  }

  // ---------- Rebuilding the references from the journal ----------

  /** Entries are applied without complaint: a context that does not fit is passed over. */
  function PutEach(refs: RefMap, cs: seq<Context>, status: Status): RefMap
    decreases |cs|
  {
    if cs == [] then refs
    else PutEach(if Fits(refs, cs[0]) then With(refs, cs[0], status) else refs, cs[1..], status)
  }

  function DropEach(refs: RefMap, cs: seq<Context>): RefMap {
    if cs == [] then refs else DropEach(Without(refs, cs[0].nonce), cs[1..])
  }

  function Apply(refs: AllRefs, e: Entry): Result<AllRefs> {
    match e.op
    case BlockPut | AddRef =>
      if |e.contexts| != 1 then Err else Ok(refs[e.id := PutEach(RefsOf(refs, e.id), e.contexts, Live)])
    case RemoveRefs => Ok(refs[e.id := DropEach(RefsOf(refs, e.id), e.contexts)])
    case ArchiveRefs => Ok(refs[e.id := PutEach(RefsOf(refs, e.id), e.contexts, Archived)])
  }

  function Replay(log: seq<Entry>): Result<AllRefs> {
    if log == [] then Ok(map[])
    else
      var r := Replay(log[..|log| - 1]);
      if r.Ok? then Apply(r.value, log[|log| - 1]) else Err
  }

  lemma ReplayMore(log: seq<Entry>, e: Entry)
    requires Replay(log).Ok?
    ensures Replay(log + [e]) == Apply(Replay(log).value, e)
  {
  }

  /** What the files of a journal say. */
  function Rebuilt(files: D.Files<Entry>): Result<AllRefs> {
    var r := D.ReadBack(files);
    if r.Ok? then Replay(r.value) else Err
  }

  /** Reference n after a list of puts: as it was if it was there under another context, and otherwise that of the first
      context of its nonce. */
  ghost predicate PutSo(refs: RefMap, cs: seq<Context>, status: Status, n: Nonce, after: RefMap) {
    && (n in after <==> n in refs || Names(cs, n))
    && (n in refs ==> after[n].context == refs[n].context)
    && (n in after && after[n].context in cs ==> after[n].status == status)
    && (n in after && after[n].context !in cs ==> n in refs && after[n] == refs[n])
    && (n in after && n !in refs ==> FirstOf(cs, n, after[n].context))
  }

  ghost predicate FirstOf(cs: seq<Context>, n: Nonce, c: Context) {
    exists i :: 0 <= i < |cs| && cs[i] == c && c.nonce == n && forall j :: 0 <= j < i ==> cs[j].nonce != n
  }

  ghost predicate OwnNonces(refs: RefMap) {
    forall n :: n in refs ==> refs[n].context.nonce == n
  }

  /** Replayed puts never rebind a nonce, whatever the journal holds. */
  lemma {:induction false} PutEachMeans(refs: RefMap, cs: seq<Context>, status: Status, n: Nonce)
    requires OwnNonces(refs)
    ensures PutSo(refs, cs, status, n, PutEach(refs, cs, status)) && OwnNonces(PutEach(refs, cs, status))
    decreases |cs|
  {
    if cs != [] {
      var one := if Fits(refs, cs[0]) then With(refs, cs[0], status) else refs;
      PutEachMeans(one, cs[1..], status, n);
      assert cs == [cs[0]] + cs[1..];
      PutSoMore(refs, one, cs, status, n, PutEach(refs, cs, status));
    }
  }

  lemma PutSoMore(refs: RefMap, one: RefMap, cs: seq<Context>, status: Status, n: Nonce, after: RefMap)
    requires cs != [] && OwnNonces(refs) && one == (if Fits(refs, cs[0]) then With(refs, cs[0], status) else refs)
    requires PutSo(one, cs[1..], status, n, after)
    ensures PutSo(refs, cs, status, n, after)
  {
    assert cs == [cs[0]] + cs[1..];
    if n in after && n !in refs {
      if cs[0].nonce == n {
        assert cs[0] == after[n].context;
      } else {
        var rest := cs[1..];
        var i :| 0 <= i < |rest| && rest[i] == after[n].context && forall j :: 0 <= j < i ==> rest[j].nonce != n;
        assert cs[i + 1] == after[n].context;
      }
    }
  }

  lemma {:induction false} DropEachMeans(refs: RefMap, cs: seq<Context>, n: Nonce)
    ensures var after := DropEach(refs, cs);
            (n in after <==> n in refs && !Names(cs, n)) && (n in after ==> after[n] == refs[n])
    decreases |cs|
  {
    if cs != [] {
      DropEachMeans(Without(refs, cs[0].nonce), cs[1..], n);
      assert cs == [cs[0]] + cs[1..];
    }
  }

  /** A put or an added reference is recorded with one context. */
  predicate WellFormed(e: Entry) {
    e.op == BlockPut || e.op == AddRef ==> |e.contexts| == 1
  }

  /** A journal is replayed, whatever it holds, exactly if each of its entries is well formed. */
  lemma {:induction false} ReplayExact(log: seq<Entry>)
    ensures Replay(log).Ok? <==> forall e :: e in log ==> WellFormed(e)
  {
    if log != [] {
      var before, last := log[..|log| - 1], log[|log| - 1];
      ReplayExact(before);
      assert log == before + [last];
      assert Replay(log).Ok? <==> Replay(before).Ok? && WellFormed(last);
    }
  }

  lemma RebuiltIs(files: D.Files<Entry>, log: seq<Entry>)
    requires D.Journal(files, log)
    ensures Rebuilt(files) == if log != [] || D.Earliest !in files then Replay(log) else Err
  {
    D.JournalReadsBack(files, log);
  }

  // ---------- The disk during a call ----------

  predicate IsBlockWrite(w: DiskWrite) {
    !w.WriteJournal?
  }

  /** Block files and journal files do not touch each other. */
  lemma {:induction false} BlockWritesApart(d: Disk, ws: seq<DiskWrite>, k: nat)
    requires k <= |ws| && forall i :: 0 <= i < k ==> IsBlockWrite(ws[i])
    ensures DoFirst(d, ws, k).journal == d.journal
  {
    if k > 0 {
      BlockWritesApart(d, ws, k - 1);
    }
  }

  lemma {:induction false} DoFirstPrefix(d: Disk, ws: seq<DiskWrite>, more: seq<DiskWrite>, k: nat)
    requires k <= |ws|
    ensures DoFirst(d, ws + more, k) == DoFirst(d, ws, k)
  {
    if k > 0 {
      DoFirstPrefix(d, ws, more, k - 1);
    }
  }

  lemma {:induction false} DoJournal(d: Disk, ws: seq<DiskWrite>, jws: seq<D.Write<Entry>>, k: nat)
    requires k <= |jws|
    ensures var d' := DoFirst(d, ws, |ws|);
            DoFirst(d, ws + JournalWrites(jws), |ws| + k) == d'.(journal := D.Written(d'.journal, jws[..k]))
  {
    if k == 0 {
      DoFirstPrefix(d, ws, JournalWrites(jws), |ws|);
      assert jws[..k] == [];
    } else {
      DoJournal(d, ws, jws, k - 1);
      assert (ws + JournalWrites(jws))[|ws| + k - 1] == WriteJournal(jws[k - 1]);
      assert jws[..k][..k - 1] == jws[..k - 1];
    }
  }

  /** A call leaves the disk that its block writes and then its append leave. */
  lemma CarryIs(d: Disk, e: Effect)
    requires forall i :: 0 <= i < |e.writes| ==> IsBlockWrite(e.writes[i])
    ensures var d' := DoFirst(d, e.writes, |e.writes|);
            && d'.journal == d.journal
            && Carry(d, e).s.disk
               == if e.entry.None? then d'
                  else d'.(journal := D.Written(d.journal, D.AppendPlan(d.journal, None, e.entry.value).writes))
  {
    BlockWritesApart(d, e.writes, |e.writes|);
    if e.entry.Some? {
      var jws := D.AppendPlan(d.journal, None, e.entry.value).writes;
      DoJournal(d, e.writes, jws, |jws|);
      assert jws[..|jws|] == jws;
    } else {
      assert e.writes + [] == e.writes;
    }
  }

  lemma EffectWrites(hash: Bytes -> BlockID, s: State, call: Call)
    ensures var e := EffectOf(hash, s, call);
            && (forall i :: 0 <= i < |e.writes| ==> IsBlockWrite(e.writes[i]))
            && (e.entry.None? ==> e.writes == [])
  {
  }

  /** The disk when a call is stopped after k writes. */
  function StopAt(hash: Bytes -> BlockID, s: State, call: Call, k: nat): Disk
    requires k <= |Writes(s.disk, EffectOf(hash, s, call))|
  {
    DoFirst(s.disk, Writes(s.disk, EffectOf(hash, s, call)), k)
  }

  /** The disk after k writes of an effect: block files up to there, then the files of the append. */
  function DiskAfter(d: Disk, e: Effect, k: nat): Disk
    requires k <= |Writes(d, e)|
  {
    if k <= |e.writes| then DoFirst(d, e.writes, k)
    else
      var jws := D.AppendPlan(d.journal, None, e.entry.value).writes;
      DoFirst(d, e.writes, |e.writes|).(journal := D.Written(d.journal, jws[..k - |e.writes|]))
  }

  lemma WritesInOrder(d: Disk, e: Effect, k: nat)
    requires k <= |Writes(d, e)| && forall i :: 0 <= i < |e.writes| ==> IsBlockWrite(e.writes[i])
    ensures DoFirst(d, Writes(d, e), k) == DiskAfter(d, e, k)
    ensures k <= |e.writes| ==> DiskAfter(d, e, k).journal == d.journal
  {
    if k <= |e.writes| {
      var more := Writes(d, e)[|e.writes|..];
      assert e.writes + more == Writes(d, e);
      DoFirstPrefix(d, e.writes, more, k);
      BlockWritesApart(d, e.writes, k);
    } else {
      BlockWritesApart(d, e.writes, |e.writes|);
      DoJournal(d, e.writes, D.AppendPlan(d.journal, None, e.entry.value).writes, k - |e.writes|);
    }
  }

  /** So it is when a call is stopped after k writes. */
  lemma DiskAt(hash: Bytes -> BlockID, s: State, call: Call, k: nat)
    requires k <= |Writes(s.disk, EffectOf(hash, s, call))|
    ensures var e := EffectOf(hash, s, call);
            && StopAt(hash, s, call, k) == DiskAfter(s.disk, e, k)
            && (k <= |e.writes| ==> StopAt(hash, s, call, k).journal == s.disk.journal)
  {
    EffectWrites(hash, s, call);
    WritesInOrder(s.disk, EffectOf(hash, s, call), k);
  }

  /** The entries after a call. */
  function Logged(log: seq<Entry>, e: Effect): seq<Entry> {
    if e.entry.Some? then log + [e.entry.value] else log
  }

  /** What files hold after k writes of an effect, when they held the log before. */
  ghost predicate JournalOf(d: Disk, e: Effect, log: seq<Entry>, k: nat, files: D.Files<Entry>) {
    && D.Journal(files, if k == |Writes(d, e)| then Logged(log, e) else log)
    && (k == |Writes(d, e)| && e.entry.Some? ==> D.Earliest in files)
    && (k < |Writes(d, e)| || e.entry.None? ==>
          (D.Earliest in files <==> D.Earliest in d.journal || k >= |e.writes| + 2))
  }

  lemma JournalBefore(d: Disk, e: Effect, log: seq<Entry>, k: nat)
    requires D.Journal(d.journal, log) && |log| < D.ORDINALS && k <= |e.writes|
    requires e.entry.None? ==> e.writes == []
    ensures JournalOf(d, e, log, k, d.journal)
  {
    if e.entry.Some? {
      D.AppendStops(d.journal, log, e.entry.value, 0);
    }
  }

  lemma JournalDuring(d: Disk, e: Effect, log: seq<Entry>, k: nat)
    requires D.Journal(d.journal, log) && |log| < D.ORDINALS && |e.writes| < k <= |Writes(d, e)| && e.entry.Some?
    ensures var jws := D.AppendPlan(d.journal, None, e.entry.value).writes;
            JournalOf(d, e, log, k, D.Written(d.journal, jws[..k - |e.writes|]))
  {
    D.AppendStops(d.journal, log, e.entry.value, k - |e.writes|);
  }

  /** The journal files hold the old entries until the last write of a call, and the new ones from then on. */
  lemma StepJournal(hash: Bytes -> BlockID, s: State, call: Call, log: seq<Entry>, k: nat)
    requires D.Journal(s.disk.journal, log) && |log| < D.ORDINALS
    requires k <= |Writes(s.disk, EffectOf(hash, s, call))|
    ensures JournalOf(s.disk, EffectOf(hash, s, call), log, k, StopAt(hash, s, call, k).journal)
  {
    var e := EffectOf(hash, s, call);
    EffectWrites(hash, s, call);
    DiskAt(hash, s, call, k);
    if k <= |e.writes| {
      JournalBefore(s.disk, e, log, k);
    } else {
      JournalDuring(s.disk, e, log, k);
    }
  }

  // ---------- Memory and journal agree ----------

  /** The references in memory are those the journal on disk says, down to blocks that have none left. */
  predicate InSync(s: State) {
    Rebuilt(s.disk.journal) == Ok(s.refs)
  }

  lemma {:induction false} DropsReplay(refs: RefMap, cs: seq<Context>)
    requires Each(Drop, refs, cs).failure.None?
    ensures DropEach(refs, cs) == Each(Drop, refs, cs).refs
  {
    if cs != [] {
      DropsReplay(Without(refs, cs[0].nonce), cs[1..]);
    }
  }

  lemma {:induction false} ArchivesReplay(refs: RefMap, cs: seq<Context>)
    requires Each(Archive, refs, cs).failure.None?
    ensures PutEach(refs, cs, Archived) == Each(Archive, refs, cs).refs
  {
    if cs != [] {
      ArchivesReplay(With(refs, cs[0], Archived), cs[1..]);
    }
  }

  /** The calls after which memory and journal disagree: a list that is refused midway, and archiving no references
      of a block that was never heard of. */
  predicate Desyncs(refs: AllRefs, call: Call) {
    match call
    case RemoveCall(id, cs) => id in refs && StopsMidway(Drop, refs[id], cs)
    case ArchiveCall(id, cs) => if id in refs then StopsMidway(Archive, refs[id], cs) else cs == []
    case _ => false
  }

  lemma SameRefs(refs: AllRefs, id: BlockID, r: RefMap)
    requires id in refs
    ensures refs[id := r] == refs <==> r == refs[id]
  {
  }

  lemma PutReplays(s: State, ws: seq<DiskWrite>, op: OpName, id: BlockID, c: Context, log: seq<Entry>)
    requires Replay(log) == Ok(s.refs) && (op == BlockPut || op == AddRef)
    ensures var e := PutRef(s, ws, op, id, c); Replay(Logged(log, e)) == Ok(e.refs)
  {
    var refs := RefsOf(s.refs, id);
    if Fits(refs, c) {
      ReplayMore(log, Entry(op, id, [c]));
      assert PutEach(refs, [c], Live) == With(refs, c, Live);
    }
  }

  lemma RemoveReplays(s: State, id: BlockID, cs: seq<Context>, log: seq<Entry>)
    requires Replay(log) == Ok(s.refs)
    ensures var e := RemoveReferences(s, id, cs);
            Replay(Logged(log, e)) == Ok(e.refs) <==> !Desyncs(s.refs, RemoveCall(id, cs))
  {
    if id in s.refs {
      FailureChanges(Drop, s.refs[id], cs);
      var b := Each(Drop, s.refs[id], cs);
      SameRefs(s.refs, id, b.refs);
      if b.failure.None? {
        ReplayMore(log, Entry(RemoveRefs, id, cs));
        DropsReplay(s.refs[id], cs);
      }
    }
  }

  lemma ArchiveReplays(s: State, id: BlockID, cs: seq<Context>, log: seq<Entry>)
    requires Replay(log) == Ok(s.refs)
    ensures var e := ArchiveReferences(s, id, cs);
            Replay(Logged(log, e)) == Ok(e.refs) <==> !Desyncs(s.refs, ArchiveCall(id, cs))
  {
    var refs := RefsOf(s.refs, id);
    FailureChanges(Archive, refs, cs);
    var b := Each(Archive, refs, cs);
    if id in s.refs {
      SameRefs(s.refs, id, b.refs);
    }
    if b.failure.None? {
      ReplayMore(log, Entry(ArchiveRefs, id, cs));
      ArchivesReplay(refs, cs);
    }
  }

  lemma PutCallReplays(hash: Bytes -> BlockID, s: State, call: Call, log: seq<Entry>)
    requires Replay(log) == Ok(s.refs) && (call.PutCall? || call.AddCall?)
    ensures var e := EffectOf(hash, s, call); Replay(Logged(log, e)) == Ok(e.refs)
  {
    var e := EffectOf(hash, s, call);
    if e.entry.Some? {
      PutReplays(s, e.writes, e.entry.value.op, call.id, call.c, log);
    }
  }

  /** Replaying the entries after a call gives the references in memory exactly when it is not one of those. */
  lemma EffectReplays(hash: Bytes -> BlockID, s: State, call: Call, log: seq<Entry>)
    requires Replay(log) == Ok(s.refs)
    ensures var e := EffectOf(hash, s, call);
            Replay(Logged(log, e)) == Ok(e.refs) <==> !Desyncs(s.refs, call)
  {
    match call
    case PutCall(_, _, _, _) => PutCallReplays(hash, s, call, log);
    case AddCall(_, _) => PutCallReplays(hash, s, call, log);
    case RemoveCall(id, cs) => RemoveReplays(s, id, cs, log);
    case ArchiveCall(id, cs) => ArchiveReplays(s, id, cs, log);
    case GetCall(_, _) =>
  }

  /** So memory and the journal on disk still agree after a call exactly when it is not one of those. */
  lemma StepSync(hash: Bytes -> BlockID, s: State, call: Call, log: seq<Entry>)
    requires D.Journal(s.disk.journal, log) && |log| < D.ORDINALS && InSync(s)
    ensures InSync(Step(hash, s, call).s) <==> !Desyncs(s.refs, call)
  {
    var e := EffectOf(hash, s, call);
    RebuiltIs(s.disk.journal, log);
    EffectReplays(hash, s, call, log);
    StepJournal(hash, s, call, log, |Writes(s.disk, e)|);
    RebuiltIs(Step(hash, s, call).s.disk.journal, Logged(log, e));
  }

  /** Only calls that fail part them, and archiving nothing. */
  lemma SuccessKeepsSync(hash: Bytes -> BlockID, s: State, call: Call, log: seq<Entry>)
    requires D.Journal(s.disk.journal, log) && |log| < D.ORDINALS && InSync(s)
    requires !Step(hash, s, call).reply.Failed?
    requires call.ArchiveCall? && call.cs == [] ==> call.id in s.refs
    ensures InSync(Step(hash, s, call).s)
  {
    StepSync(hash, s, call, log);
    if call.RemoveCall? && call.id in s.refs {
      FailureChanges(Drop, s.refs[call.id], call.cs);
    } else if call.ArchiveCall? && call.id in s.refs {
      FailureChanges(Archive, s.refs[call.id], call.cs);
    }
  }

  // ---------- Runs ----------

  function After(hash: Bytes -> BlockID, calls: seq<Call>): State {
    if |calls| == 0 then EMPTY else Step(hash, After(hash, calls[..|calls| - 1]), calls[|calls| - 1]).s
  }

  lemma AfterMore(hash: Bytes -> BlockID, calls: seq<Call>, call: Call)
    ensures After(hash, calls + [call]) == Step(hash, After(hash, calls), call).s
  {
    assert (calls + [call])[..|calls + [call]| - 1] == calls;
  }

  /** The entries of a run. */
  function LogAfter(hash: Bytes -> BlockID, calls: seq<Call>): (log: seq<Entry>)
    ensures |log| <= |calls|
  {
    if |calls| == 0 then []
    else
      var p := calls[..|calls| - 1];
      Logged(LogAfter(hash, p), EffectOf(hash, After(hash, p), calls[|calls| - 1]))
  }

  /** The journal files that the calls of a run write hold its entries. */
  lemma {:induction false} RunJournal(hash: Bytes -> BlockID, calls: seq<Call>)
    requires |calls| < D.ORDINALS
    ensures var files, log := After(hash, calls).disk.journal, LogAfter(hash, calls);
            D.Journal(files, log) && (log != [] || D.Earliest !in files)
  {
    if |calls| > 0 {
      var p, call := calls[..|calls| - 1], calls[|calls| - 1];
      RunJournal(hash, p);
      var s := After(hash, p);
      StepJournal(hash, s, call, LogAfter(hash, p), |Writes(s.disk, EffectOf(hash, s, call))|);
      EffectWrites(hash, s, call);
    }
  }

  /** So its journal can take the next entry. */
  lemma RunRoom(hash: Bytes -> BlockID, calls: seq<Call>)
    requires |calls| < D.ORDINALS
    ensures D.Room(After(hash, calls).disk.journal)
  {
    RunJournal(hash, calls);
    D.AppendStops(After(hash, calls).disk.journal, LogAfter(hash, calls), Entry(AddRef, 0, []), 0);
  }

  /** No call of the run is one of those. */
  predicate Orderly(hash: Bytes -> BlockID, calls: seq<Call>) {
    |calls| == 0 ||
    (Orderly(hash, calls[..|calls| - 1])
     && !Desyncs(After(hash, calls[..|calls| - 1]).refs, calls[|calls| - 1]))
  }

  /** After any orderly run, reading the journal files that its calls have written gives the references in memory: the
      comparison at shutdown succeeds, and a restart finds the same references. */
  lemma {:induction false} RunSync(hash: Bytes -> BlockID, calls: seq<Call>)
    requires |calls| < D.ORDINALS && Orderly(hash, calls)
    ensures InSync(After(hash, calls))
  {
    if |calls| > 0 {
      var p := calls[..|calls| - 1];
      RunSync(hash, p);
      RunJournal(hash, p);
      StepSync(hash, After(hash, p), calls[|calls| - 1], LogAfter(hash, p));
    } else {
      RebuiltIs(map[], []);
    }
  }

  // ---------- What a caller sees ----------

  lemma OwnReply(hash: Bytes -> BlockID, s: State, call: Call)
    ensures EffectOf(hash, s, call).reply != Failed(JournalFailed)
  {
    match call
    case RemoveCall(id, cs) => EachMeans(Drop, RefsOf(s.refs, id), cs, ZERO_NONCE);
    case ArchiveCall(id, cs) => EachMeans(Archive, RefsOf(s.refs, id), cs, ZERO_NONCE);
    case _ =>
  }

  /** A call says that the journal failed exactly if it has something to record and the append fails.  The references
      have then changed all the same, and the journal reads as before. */
  lemma JournalFailure(hash: Bytes -> BlockID, s: State, call: Call)
    ensures var a, e, files := Step(hash, s, call), EffectOf(hash, s, call), s.disk.journal;
            var fails := e.entry.Some? &&
                         !(D.Follows(files, None) && (D.Earliest in files ==> D.Readable(files, D.Earliest)));
            && a.reply == (if fails then Failed(JournalFailed) else e.reply) && e.reply != Failed(JournalFailed)
            && a.s.refs == e.refs && (fails ==> D.ReadBack(a.s.disk.journal) == D.ReadBack(files))
  {
    var e := EffectOf(hash, s, call);
    OwnReply(hash, s, call);
    if e.entry.Some? {
      D.AppendFails(s.disk.journal, None, e.entry.value);
      if !D.AppendPlan(s.disk.journal, None, e.entry.value).ok {
        D.FailedAppendUnseen(s.disk.journal, None, e.entry.value);
        CarryIs(s.disk, e);
      }
    }
  }

  /** A block is got exactly by a context that one of its references has, if it is stored; otherwise it is missing if
      there is no such reference or a file of it is gone. */
  lemma GetExact(hash: Bytes -> BlockID, s: State, id: BlockID, c: Context)
    ensures var r, refs := Get(hash, s, id, c), RefsOf(s.refs, id);
            var held := c.nonce in refs && refs[c.nonce].context == c;
            && (r.Data? <==> held && StoredBlock(hash, s.disk, id))
            && (r.Data? ==> r == Data(s.disk.data[id], s.disk.halves[id]))
            && (r == Failed(NonExistent) <==>
                c.nonce !in refs || (held && (id !in s.disk.data || id !in s.disk.halves)))
            && (r.Data? || r == Failed(NonExistent) || r == Failed(Refused))
  {
  }

  /** A put is made exactly if it is valid and its nonce is free, or held under the same context by a block with a file
      missing or with sound data and the same key half.  Else it writes and records nothing. */
  lemma PutExact(hash: Bytes -> BlockID, s: State, id: BlockID, c: Context, buf: Bytes, half: ServerHalf)
    ensures var e, refs := EffectOf(hash, s, PutCall(id, c, buf, half)), RefsOf(s.refs, id);
            && (e.reply == Done <==>
                ValidPut(hash, id, c, buf) &&
                (c.nonce in refs ==>
                   && refs[c.nonce].context == c
                   && (id in s.disk.data && id in s.disk.halves ==>
                         hash(s.disk.data[id]) == id && s.disk.halves[id] == half)))
            && (e.reply == Done ==> e.entry == Some(Entry(BlockPut, id, [c]))
                                    && e.writes == [WriteData(id, buf), WriteHalf(id, half)])
            && (e.reply != Done ==> e == Nothing(s, Failed(Refused)))
  {
  }

  /** A reference is added exactly if the block has a live one and the nonce is free or held under the same context; and
      the call says that all are archived exactly if the block is known and no reference is live. */
  lemma AddExact(s: State, id: BlockID, c: Context)
    ensures var e := AddReference(s, id, c);
            && (e.reply == Done <==> CanAdd(RefsOf(s.refs, id), c))
            && (e.reply == Failed(AllArchived) <==> id in s.refs && NoneLive(s.refs[id]))
            && (e.reply != Done ==> e.refs == s.refs && e.entry.None?)
            && (e.reply == Done ==> e.entry == Some(Entry(AddRef, id, [c])))
  {
  }

  /** So none can be added after all references of a block are archived. */
  lemma ArchiveAllThenAdd(s: State, id: BlockID, cs: seq<Context>, d: Disk, c: Context)
    requires id in s.refs && ArchiveReferences(s, id, cs).reply == Done
    requires forall n :: n in s.refs[id] ==> Names(cs, n)
    ensures AddReference(State(ArchiveReferences(s, id, cs).refs, d), id, c).reply == Failed(AllArchived)
  {
    ArchiveAllLeavesNone(s.refs[id], cs);
    AddExact(State(ArchiveReferences(s, id, cs).refs, d), id, c);
  }

  /** What a call makes of the status of a reference; none is no reference. */
  function StatusStep(hash: Bytes -> BlockID, s: State, call: Call, id: BlockID, n: Nonce, before: Option<Status>)
    : Option<Status>
  {
    if call.id != id then before
    else
      match call
      case PutCall(_, c, _, _) => if c.nonce == n && EffectOf(hash, s, call).reply == Done then Some(Live) else before
      case AddCall(_, c) => if c.nonce == n && EffectOf(hash, s, call).reply == Done then Some(Live) else before
      case RemoveCall(_, cs) => if Names(cs[..Reached(Drop, RefsOf(s.refs, id), cs)], n) then None else before
      case ArchiveCall(_, cs) =>
        if Names(cs[..Reached(Archive, RefsOf(s.refs, id), cs)], n) then Some(Archived) else before
      case GetCall(_, _) => before
  }

  /** The status that the calls of a run have given a reference, the last one to touch it deciding. */
  function StatusAfter(hash: Bytes -> BlockID, calls: seq<Call>, id: BlockID, n: Nonce): Option<Status> {
    if |calls| == 0 then None
    else
      var p := calls[..|calls| - 1];
      StatusStep(hash, After(hash, p), calls[|calls| - 1], id, n, StatusAfter(hash, p, id, n))
  }

  function Shown(all: map<BlockID, map<Nonce, Status>>, id: BlockID, n: Nonce): Option<Status> {
    if id in all && n in all[id] then Some(all[id][n]) else None
  }

  function StatusIn(refs: RefMap, n: Nonce): Option<Status> {
    if n in refs then Some(refs[n].status) else None
  }

  lemma ShownIs(refs: AllRefs, id: BlockID, n: Nonce)
    ensures Shown(GetAll(refs), id, n) == StatusIn(RefsOf(refs, id), n)
  {
    if id in refs {
      assert n in refs[id] ==> refs[id] != map[];
    }
  }

  lemma OthersKeepRefs(hash: Bytes -> BlockID, s: State, call: Call, id: BlockID)
    requires call.id != id
    ensures RefsOf(EffectOf(hash, s, call).refs, id) == RefsOf(s.refs, id)
  {
  }

  lemma ListStep(hash: Bytes -> BlockID, s: State, call: Call, n: Nonce)
    requires call.RemoveCall? || call.ArchiveCall?
    ensures StatusIn(RefsOf(EffectOf(hash, s, call).refs, call.id), n)
            == StatusStep(hash, s, call, call.id, n, StatusIn(RefsOf(s.refs, call.id), n))
  {
    var a, refs := if call.RemoveCall? then Drop else Archive, RefsOf(s.refs, call.id);
    EachMeans(a, refs, call.cs, n);
    if call.ArchiveCall? && call.id !in s.refs {
      ArchiveKeepsRefs(refs, call.cs);
    } else if call.RemoveCall? && call.id !in s.refs {
      DropFromNone(call.cs);
    }
  }

  lemma OneStep(hash: Bytes -> BlockID, s: State, call: Call, n: Nonce)
    requires call.PutCall? || call.AddCall? || call.GetCall?
    ensures StatusIn(RefsOf(EffectOf(hash, s, call).refs, call.id), n)
            == StatusStep(hash, s, call, call.id, n, StatusIn(RefsOf(s.refs, call.id), n))
  {
  }

  lemma ShownStep(hash: Bytes -> BlockID, s: State, call: Call, id: BlockID, n: Nonce)
    ensures Shown(GetAll(EffectOf(hash, s, call).refs), id, n)
            == StatusStep(hash, s, call, id, n, Shown(GetAll(s.refs), id, n))
  {
    ShownIs(s.refs, id, n);
    ShownIs(EffectOf(hash, s, call).refs, id, n);
    if call.id != id {
      OthersKeepRefs(hash, s, call, id);
    } else if call.RemoveCall? || call.ArchiveCall? {
      ListStep(hash, s, call, n);
    } else {
      OneStep(hash, s, call, n);
    }
  }

  /** After any run, failed calls included, the list of all references shows each with the status that the last call to
      touch it gave it: live if it was put or added, archived if it was archived, and not at all if it was removed. */
  lemma {:induction false} RunShows(hash: Bytes -> BlockID, calls: seq<Call>, id: BlockID, n: Nonce)
    ensures Shown(GetAll(After(hash, calls).refs), id, n) == StatusAfter(hash, calls, id, n)
  {
    if |calls| > 0 {
      var p := calls[..|calls| - 1];
      RunShows(hash, p, id, n);
      ShownStep(hash, After(hash, p), calls[|calls| - 1], id, n);
    }
  }

  // ---------- Stopping in the middle of a call ----------

  /** Every block that is referenced has its two files, with the data its ID is the hash of. */
  predicate Stored(hash: Bytes -> BlockID, refs: AllRefs, d: Disk) {
    forall id :: id in refs && refs[id] != map[] ==> StoredBlock(hash, d, id)
  }

  predicate StoredBlock(hash: Bytes -> BlockID, d: Disk, id: BlockID) {
    id in d.data && id in d.halves && hash(d.data[id]) == id
  }

  /** The last reference of a block goes. */
  predicate Empties(s: State, call: Call) {
    call.RemoveCall? && call.id in s.refs && s.refs[call.id] != map[]
    && Each(Drop, s.refs[call.id], call.cs) == Batch(map[], None)
  }

  /** The files of a block go with its last reference, and those of no other block. */
  lemma EmptiedIsGone(hash: Bytes -> BlockID, s: State, call: Call, id: BlockID)
    requires Empties(s, call)
    ensures var d := Step(hash, s, call).s.disk;
            && (id in d.data <==> id in s.disk.data && id != call.id)
            && (id in d.halves <==> id in s.disk.halves && id != call.id)
            && (id in d.data ==> d.data[id] == s.disk.data[id])
            && (id in d.halves ==> d.halves[id] == s.disk.halves[id])
  {
    var e := EffectOf(hash, s, call);
    CarryIs(s.disk, e);
    assert e.writes == [RemoveBlock(call.id)];
    assert DoFirst(s.disk, e.writes, 1) == Do(DoFirst(s.disk, e.writes, 0), e.writes[0]);
  }

  lemma DoStores(hash: Bytes -> BlockID, d: Disk, w: DiskWrite, id: BlockID)
    requires StoredBlock(hash, d, id) && IsBlockWrite(w) && (w.WriteData? ==> hash(w.buf) == w.id)
    ensures StoredBlock(hash, Do(d, w), id) <==> w != RemoveBlock(id)
  {
  }

  /** The writes of a call to block files: the data and key half that Put has checked, or one removal. */
  lemma WritesOf(hash: Bytes -> BlockID, s: State, call: Call)
    ensures var ws := EffectOf(hash, s, call).writes;
            && (|ws| == 0
                || (|ws| == 1 && ws[0] == RemoveBlock(call.id))
                || (|ws| == 2 && call.PutCall? && hash(call.buf) == call.id
                    && ws[0] == WriteData(call.id, call.buf) && ws[1] == WriteHalf(call.id, call.half)))
            && (|ws| == 1 <==> call.RemoveCall? && call.id in s.refs
                               && Each(Drop, s.refs[call.id], call.cs) == Batch(map[], None))
  {
  }

  /** A stored block is still stored when a call is stopped, unless that has removed it. */
  lemma StoredAt(hash: Bytes -> BlockID, s: State, call: Call, k: nat, id: BlockID)
    requires k <= |Writes(s.disk, EffectOf(hash, s, call))| && StoredBlock(hash, s.disk, id)
    ensures StoredBlock(hash, StopAt(hash, s, call, k), id)
            <==> !(k >= 1 && |EffectOf(hash, s, call).writes| == 1 && id == call.id)
  {
    DiskAt(hash, s, call, k);
    WritesOf(hash, s, call);
    var ws := EffectOf(hash, s, call).writes;
    if k >= 1 && |ws| >= 1 {
      var d := Do(s.disk, ws[0]);
      assert DoFirst(s.disk, ws, 1) == d;
      DoStores(hash, s.disk, ws[0], id);
      if k >= 2 && |ws| == 2 {
        DoStores(hash, d, ws[1], id);
      }
    }
  }

  /** Stopped after any of its writes but the last, a call leaves a disk on which a restart finds the references as
      they were before the call, exactly unless nothing was ever logged and Earliest has been written: then it
      cannot start. The referenced blocks are all there exactly unless the call was removing the last reference of
      one. */
  lemma Interruption(hash: Bytes -> BlockID, s: State, call: Call, log: seq<Entry>, k: nat)
    requires D.Journal(s.disk.journal, log) && |log| < D.ORDINALS && InSync(s) && Stored(hash, s.refs, s.disk)
    requires k < |Writes(s.disk, EffectOf(hash, s, call))|
    ensures var e, d := EffectOf(hash, s, call), StopAt(hash, s, call, k);
            && D.Journal(d.journal, log)
            && Rebuilt(d.journal) == (if log == [] && k >= |e.writes| + 2 then Err else Ok(s.refs))
            && (Stored(hash, s.refs, d) <==> !(k >= 1 && Empties(s, call)))
  {
    RebuiltIs(s.disk.journal, log);
    StepJournal(hash, s, call, log, k);
    RebuiltIs(StopAt(hash, s, call, k).journal, log);
    WritesOf(hash, s, call);
    forall id | id in s.refs && s.refs[id] != map[]
      ensures StoredBlock(hash, StopAt(hash, s, call, k), id) <==> !(k >= 1 && Empties(s, call) && id == call.id)
    {
      StoredAt(hash, s, call, k, id);
    }
  }

  /** A completed call leaves the referenced blocks there, whether or not it succeeds. */
  lemma StepStored(hash: Bytes -> BlockID, s: State, call: Call)
    requires Stored(hash, s.refs, s.disk)
    ensures var s' := Step(hash, s, call).s; Stored(hash, s'.refs, s'.disk)
  {
    var e := EffectOf(hash, s, call);
    var k := |Writes(s.disk, e)|;
    WritesOf(hash, s, call);
    forall id | id in e.refs && e.refs[id] != map[]
      ensures StoredBlock(hash, StopAt(hash, s, call, k), id)
    {
      if id in s.refs && s.refs[id] != map[] {
        StoredAt(hash, s, call, k, id);
      } else {
        NewlyStored(hash, s, call, id);
      }
    }
  }

  /** Only Put makes references to a block that had none. */
  lemma NewIsPut(hash: Bytes -> BlockID, s: State, call: Call, id: BlockID)
    requires var refs := EffectOf(hash, s, call).refs; id in refs && refs[id] != map[]
    requires RefsOf(s.refs, id) == map[]
    ensures call.PutCall? && hash(call.buf) == call.id == id
    ensures EffectOf(hash, s, call).writes == [WriteData(id, call.buf), WriteHalf(id, call.half)]
  {
    if call.RemoveCall? && call.id in s.refs && call.id == id {
      DropFromNone(call.cs);
    } else if call.ArchiveCall? && call.id == id {
      ArchiveKeepsRefs(RefsOf(s.refs, id), call.cs);
    }
  }

  lemma NewlyStored(hash: Bytes -> BlockID, s: State, call: Call, id: BlockID)
    requires var refs := EffectOf(hash, s, call).refs; id in refs && refs[id] != map[]
    requires RefsOf(s.refs, id) == map[]
    ensures StoredBlock(hash, Step(hash, s, call).s.disk, id)
  {
    NewIsPut(hash, s, call, id);
    var e := EffectOf(hash, s, call);
    DiskAt(hash, s, call, |Writes(s.disk, e)|);
    TwoWrites(s.disk, e.writes);
  }

  /** So they are after any run, failed calls included. */
  lemma {:induction false} RunStored(hash: Bytes -> BlockID, calls: seq<Call>)
    ensures var s := After(hash, calls); Stored(hash, s.refs, s.disk)
  {
    if |calls| > 0 {
      RunStored(hash, calls[..|calls| - 1]);
      StepStored(hash, After(hash, calls[..|calls| - 1]), calls[|calls| - 1]);
    }
  }

  // ---------- Runs with interruptions ----------

  /** The process starts on what is on disk, which fails if the journal cannot be read. */
  function Restart(d: Disk): Option<State> {
    var r := Rebuilt(d.journal);
    if r.Ok? then Some(State(r.value, d)) else None
  }

  /** After any orderly run a restart finds the server as it was. */
  lemma RestartFindsRefs(hash: Bytes -> BlockID, calls: seq<Call>)
    requires |calls| < D.ORDINALS && Orderly(hash, calls)
    ensures Restart(After(hash, calls).disk) == Some(After(hash, calls))
  {
    RunSync(hash, calls);
  }

  /** A call that returns, or one that is stopped after so many writes, or after its last if it has no more, and is
      followed by a restart. */
  datatype Event = Called(call: Call) | Stopped(call: Call, writes: nat)

  predicate Completes(hash: Bytes -> BlockID, s: State, ev: Event) {
    ev.Called? || ev.writes >= |Writes(s.disk, EffectOf(hash, s, ev.call))|
  }

  function Happen(hash: Bytes -> BlockID, s: State, ev: Event): Option<State> {
    if ev.Called? then Some(Step(hash, s, ev.call).s)
    else if Completes(hash, s, ev) then Restart(Step(hash, s, ev.call).s.disk)
    else Restart(StopAt(hash, s, ev.call, ev.writes))
  }

  /** The server after the events, or none once a restart has failed. */
  function AfterEvents(hash: Bytes -> BlockID, evs: seq<Event>): Option<State> {
    if |evs| == 0 then Some(EMPTY)
    else
      var o := AfterEvents(hash, evs[..|evs| - 1]);
      if o.None? then None else Happen(hash, o.value, evs[|evs| - 1])
  }

  function LogStep(hash: Bytes -> BlockID, s: State, ev: Event, log: seq<Entry>): seq<Entry> {
    if Completes(hash, s, ev) then Logged(log, EffectOf(hash, s, ev.call)) else log
  }

  /** The entries of the calls that completed. */
  function LogOf(hash: Bytes -> BlockID, evs: seq<Event>): seq<Entry> {
    if |evs| == 0 then []
    else
      var p := evs[..|evs| - 1];
      var o := AfterEvents(hash, p);
      if o.None? then LogOf(hash, p) else LogStep(hash, o.value, evs[|evs| - 1], LogOf(hash, p))
  }

  /** Since the last restart no call is one of those that put memory and journal apart. */
  predicate OrderlySince(hash: Bytes -> BlockID, evs: seq<Event>) {
    |evs| == 0 ||
    (var p, ev := evs[..|evs| - 1], evs[|evs| - 1];
     var o := AfterEvents(hash, p);
     ev.Stopped? || (OrderlySince(hash, p) && (o.None? || !Desyncs(o.value.refs, ev.call))))
  }

  /** Stopped with nothing logged, the entry and Earliest written, but not Latest. */
  predicate Sticks(hash: Bytes -> BlockID, s: State, ev: Event, log: seq<Entry>) {
    log == [] && ev.Stopped? && !Completes(hash, s, ev) && ev.writes >= |EffectOf(hash, s, ev.call).writes| + 2
  }

  predicate EverSticks(hash: Bytes -> BlockID, evs: seq<Event>) {
    |evs| > 0 &&
    (var p := evs[..|evs| - 1];
     var o := AfterEvents(hash, p);
     EverSticks(hash, p) || (o.Some? && Sticks(hash, o.value, evs[|evs| - 1], LogOf(hash, p))))
  }

  /** The journal files hold the entries, which can be replayed. */
  ghost predicate OnDisk(d: Disk, log: seq<Entry>) {
    D.Journal(d.journal, log) && (log != [] || D.Earliest !in d.journal) && Replay(log).Ok?
  }

  /** An entry that adds a reference has one context. */
  lemma EntryShape(hash: Bytes -> BlockID, s: State, call: Call)
    ensures var en := EffectOf(hash, s, call).entry;
            en.Some? && (en.value.op.BlockPut? || en.value.op.AddRef?) ==> |en.value.contexts| == 1
  {
  }

  /** What a call appends can be replayed. */
  lemma LoggedReplays(hash: Bytes -> BlockID, s: State, call: Call, log: seq<Entry>)
    requires Replay(log).Ok?
    ensures Replay(Logged(log, EffectOf(hash, s, call))).Ok?
  {
    EntryShape(hash, s, call);
    EntryReplays(log, EffectOf(hash, s, call).entry);
  }

  lemma EntryReplays(log: seq<Entry>, en: Option<Entry>)
    requires Replay(log).Ok?
    requires en.Some? && (en.value.op.BlockPut? || en.value.op.AddRef?) ==> |en.value.contexts| == 1
    ensures Replay(if en.Some? then log + [en.value] else log).Ok?
  {
    if en.Some? {
      ReplayMore(log, en.value);
    }
  }

  /** A restart after a completed call finds what the call and those before it logged. */
  lemma StepFollows(hash: Bytes -> BlockID, s: State, call: Call, log: seq<Entry>)
    requires OnDisk(s.disk, log) && |log| < D.ORDINALS
    ensures var e, d := EffectOf(hash, s, call), Step(hash, s, call).s.disk;
            && OnDisk(d, Logged(log, e))
            && Restart(d) == Some(State(Replay(Logged(log, e)).value, d))
  {
    var e := EffectOf(hash, s, call);
    EffectWrites(hash, s, call);
    StepJournal(hash, s, call, log, |Writes(s.disk, e)|);
    RebuiltIs(Step(hash, s, call).s.disk.journal, Logged(log, e));
    LoggedReplays(hash, s, call, log);
  }

  /** A restart after a call that was stopped finds what was logged before it, or cannot read the journal. */
  lemma StopFollows(hash: Bytes -> BlockID, s: State, call: Call, log: seq<Entry>, k: nat)
    requires OnDisk(s.disk, log) && |log| < D.ORDINALS && k < |Writes(s.disk, EffectOf(hash, s, call))|
    ensures var d := StopAt(hash, s, call, k);
            if log == [] && k >= |EffectOf(hash, s, call).writes| + 2 then Restart(d) == None
            else Restart(d) == Some(State(Replay(log).value, d)) && OnDisk(d, log)
  {
    StepJournal(hash, s, call, log, k);
    RebuiltIs(StopAt(hash, s, call, k).journal, log);
  }

  lemma HappenFollows(hash: Bytes -> BlockID, s: State, ev: Event, log: seq<Entry>)
    requires OnDisk(s.disk, log) && |log| < D.ORDINALS
    ensures var o, log' := Happen(hash, s, ev), LogStep(hash, s, ev, log);
            && (o.None? <==> Sticks(hash, s, ev, log))
            && (o.Some? ==> OnDisk(o.value.disk, log'))
            && (o.Some? && ev.Stopped? ==> Replay(log') == Ok(o.value.refs))
  {
    if Completes(hash, s, ev) {
      StepFollows(hash, s, ev.call, log);
    } else {
      StopFollows(hash, s, ev.call, log, ev.writes);
    }
  }

  /** After any run of calls and interruptions, the journal files hold exactly what the completed calls logged, and the
      server is gone exactly if a restart came on a journal stopped in its very first append between Earliest and
      Latest.  Memory holds the same after every restart, and from then on until a call puts them apart. */
  lemma {:induction false} EventsReplay(hash: Bytes -> BlockID, evs: seq<Event>)
    requires |evs| < D.ORDINALS
    ensures var o, log := AfterEvents(hash, evs), LogOf(hash, evs);
            && (o.None? <==> EverSticks(hash, evs))
            && (o.Some? ==> OnDisk(o.value.disk, log))
            && (o.Some? && OrderlySince(hash, evs) ==> Replay(log) == Ok(o.value.refs))
    ensures |LogOf(hash, evs)| <= |evs|
  {
    if |evs| > 0 {
      var p, ev := evs[..|evs| - 1], evs[|evs| - 1];
      EventsReplay(hash, p);
      var o := AfterEvents(hash, p);
      if o.Some? {
        HappenFollows(hash, o.value, ev, LogOf(hash, p));
        if ev.Called? && OrderlySince(hash, evs) {
          EffectReplays(hash, o.value, ev.call, LogOf(hash, p));
        }
      }
    }
  }

  /** The first such call since a restart does put them apart. */
  lemma EventsPart(hash: Bytes -> BlockID, evs: seq<Event>)
    requires 0 < |evs| < D.ORDINALS && AfterEvents(hash, evs).Some? && OrderlySince(hash, evs[..|evs| - 1])
    ensures InSync(AfterEvents(hash, evs).value) <==> OrderlySince(hash, evs)
  {
    var p, ev := evs[..|evs| - 1], evs[|evs| - 1];
    EventsReplay(hash, p);
    EventsReplay(hash, evs);
    var s := AfterEvents(hash, p).value;
    RebuiltIs(AfterEvents(hash, evs).value.disk.journal, LogOf(hash, evs));
    if ev.Called? {
      EffectReplays(hash, s, ev.call, LogOf(hash, p));
    }
  }

  // ---------- The blocks in such runs ----------

  /** The event removes a block that the journal then still has references to. */
  predicate Loses(hash: Bytes -> BlockID, s: State, ev: Event, log: seq<Entry>) {
    && |EffectOf(hash, s, ev.call).writes| == 1 && (Completes(hash, s, ev) || ev.writes >= 1)
    && var r := Replay(LogStep(hash, s, ev, log));
       r.Ok? && RefsOf(r.value, ev.call.id) != map[]
  }

  lemma {:induction false} DropEachShrinks(refs: RefMap, cs: seq<Context>)
    ensures DropEach(refs, cs) != map[] ==> refs != map[]
  {
    if cs != [] {
      DropEachShrinks(Without(refs, cs[0].nonce), cs[1..]);
    }
  }

  /** Only putting or archiving references makes some for a block. */
  lemma AppliedRefs(refs: AllRefs, en: Entry, id: BlockID)
    requires Apply(refs, en).Ok? && RefsOf(Apply(refs, en).value, id) != map[]
    ensures RefsOf(refs, id) != map[] || (en.id == id && !en.op.RemoveRefs? && en.contexts != [])
  {
    if en.op.RemoveRefs? && en.id == id {
      DropEachShrinks(RefsOf(refs, id), en.contexts);
    }
  }

  /** A call that logs that finds references to the block in memory, or puts it. */
  lemma EntryNeeds(hash: Bytes -> BlockID, s: State, call: Call)
    requires var en := EffectOf(hash, s, call).entry;
             en.Some? && !en.value.op.RemoveRefs? && en.value.contexts != []
    ensures var e := EffectOf(hash, s, call);
            e.entry.value.id == call.id && (RefsOf(s.refs, call.id) != map[] || (call.PutCall? && |e.writes| == 2))
  {
  }

  /** A block that the journal has references to after a call had some before, in memory or there, or was just put. */
  lemma LoggedRefs(hash: Bytes -> BlockID, s: State, call: Call, log: seq<Entry>, id: BlockID)
    requires Replay(log).Ok?
    requires var r := Replay(Logged(log, EffectOf(hash, s, call))); r.Ok? && RefsOf(r.value, id) != map[]
    ensures || RefsOf(s.refs, id) != map[] || RefsOf(Replay(log).value, id) != map[]
            || (call.PutCall? && call.id == id && |EffectOf(hash, s, call).writes| == 2)
  {
    var en := EffectOf(hash, s, call).entry;
    if en.Some? {
      ReplayMore(log, en.value);
      AppliedRefs(Replay(log).value, en.value, id);
      if en.value.id == id && !en.value.op.RemoveRefs? && en.value.contexts != [] {
        EntryNeeds(hash, s, call);
      }
    }
  }

  /** All blocks referenced in memory are there, and all that the journal has references to. */
  ghost predicate AllStored(hash: Bytes -> BlockID, s: State, log: seq<Entry>)
    requires Replay(log).Ok?
  {
    Stored(hash, s.refs, s.disk) && Stored(hash, Replay(log).value, s.disk)
  }

  /** Block id, with references in the journal after the event, is there exactly if the event did not remove it. */
  lemma StillStored(hash: Bytes -> BlockID, s: State, ev: Event, log: seq<Entry>, k: nat, id: BlockID)
    requires Replay(log).Ok? && AllStored(hash, s, log)
    requires k == if Completes(hash, s, ev) then |Writes(s.disk, EffectOf(hash, s, ev.call))| else ev.writes
    requires var r := Replay(LogStep(hash, s, ev, log)); r.Ok? && RefsOf(r.value, id) != map[]
    ensures StoredBlock(hash, StopAt(hash, s, ev.call, k), id)
            <==> !(k >= 1 && |EffectOf(hash, s, ev.call).writes| == 1 && id == ev.call.id)
  {
    var e := EffectOf(hash, s, ev.call);
    if Completes(hash, s, ev) {
      LoggedRefs(hash, s, ev.call, log, id);
    }
    if RefsOf(s.refs, id) != map[] || RefsOf(Replay(log).value, id) != map[] {
      StoredAt(hash, s, ev.call, k, id);
    } else {
      DiskAt(hash, s, ev.call, k);
      WritesOf(hash, s, ev.call);
      TwoWrites(s.disk, e.writes);
    }
  }

  /** An event leaves all blocks that the journal has references to, exactly if it does not lose one. */
  lemma HappenStored(hash: Bytes -> BlockID, s: State, ev: Event, log: seq<Entry>)
    requires OnDisk(s.disk, log) && |log| < D.ORDINALS && AllStored(hash, s, log)
    ensures var o, r := Happen(hash, s, ev), Replay(LogStep(hash, s, ev, log));
            && (o.Some? ==> r.Ok? && (Stored(hash, r.value, o.value.disk) <==> !Loses(hash, s, ev, log)))
            && (o.Some? && ev.Called? ==> Stored(hash, o.value.refs, o.value.disk))
  {
    HappenFollows(hash, s, ev, log);
    var o, log' := Happen(hash, s, ev), LogStep(hash, s, ev, log);
    if o.Some? {
      var e := EffectOf(hash, s, ev.call);
      var k := if Completes(hash, s, ev) then |Writes(s.disk, e)| else ev.writes;
      var refs := Replay(log').value;
      assert o.value.disk == StopAt(hash, s, ev.call, k);
      forall id | id in refs && refs[id] != map[]
        ensures StoredBlock(hash, o.value.disk, id) <==> !(Loses(hash, s, ev, log) && id == ev.call.id)
      {
        StillStored(hash, s, ev, log, k, id);
      }
      if ev.Called? {
        StepStored(hash, s, ev.call);
      }
    }
  }

  /** While memory holds what was logged, only a stop in the middle of removing a last reference loses a block. */
  lemma LosesInSync(hash: Bytes -> BlockID, s: State, ev: Event, log: seq<Entry>)
    requires Replay(log) == Ok(s.refs)
    ensures Loses(hash, s, ev, log) <==> !Completes(hash, s, ev) && ev.writes >= 1 && Empties(s, ev.call)
  {
    WritesOf(hash, s, ev.call);
    EffectReplays(hash, s, ev.call, log);
    if Completes(hash, s, ev) && ev.call.RemoveCall? && ev.call.id in s.refs {
      FailureChanges(Drop, s.refs[ev.call.id], ev.call.cs);
    }
  }

  predicate NeverLoses(hash: Bytes -> BlockID, evs: seq<Event>) {
    |evs| == 0 ||
    (var p := evs[..|evs| - 1];
     var o := AfterEvents(hash, p);
     NeverLoses(hash, p) && (o.None? || !Loses(hash, o.value, evs[|evs| - 1], LogOf(hash, p))))
  }

  /** In every run whose events lose no block, all referenced blocks are there, in memory and as a restart finds
      them. */
  lemma {:induction false} EventsStored(hash: Bytes -> BlockID, evs: seq<Event>)
    requires |evs| < D.ORDINALS && NeverLoses(hash, evs)
    ensures var o, r := AfterEvents(hash, evs), Replay(LogOf(hash, evs));
            o.Some? ==> r.Ok? && AllStored(hash, o.value, LogOf(hash, evs))
  {
    if |evs| > 0 {
      var p, ev := evs[..|evs| - 1], evs[|evs| - 1];
      EventsStored(hash, p);
      EventsReplay(hash, p);
      var o := AfterEvents(hash, p);
      if o.Some? {
        HappenFollows(hash, o.value, ev, LogOf(hash, p));
        HappenStored(hash, o.value, ev, LogOf(hash, p));
      }
    }
  }

  // ---------- Concrete runs ----------

  /** The first Put of a block, on a server that never heard of it. */
  lemma FirstPut(hash: Bytes -> BlockID, c: Context, buf: Bytes, half: ServerHalf)
    requires ValidPut(hash, hash(buf), c, buf)
    ensures var id := hash(buf);
            var call := PutCall(id, c, buf, half);
            && EffectOf(hash, EMPTY, call)
               == Effect(map[id := map[c.nonce := RefEntry(Live, c)]], [WriteData(id, buf), WriteHalf(id, half)],
                         Some(Entry(BlockPut, id, [c])), Done)
            && After(hash, [call]).refs == map[id := map[c.nonce := RefEntry(Live, c)]]
            && Orderly(hash, [call])
  {
    var id := hash(buf);
    var one := [PutCall(id, c, buf, half)];
    assert Get(hash, EMPTY, id, c) == Failed(NonExistent);
    var none := one[..|one| - 1];
    assert |none| == 0 && After(hash, none) == EMPTY && Orderly(hash, none);
    assert Orderly(hash, one);
  }

  /** Block id has the two references in memory and in the entries. */
  ghost predicate BothHeld(s: State, log: seq<Entry>, id: BlockID, mine: Context, other: Context) {
    && id in s.refs && s.refs[id] == map[0 := RefEntry(Live, mine), 7 := RefEntry(Live, other)]
    && Replay(log) == Ok(s.refs) && OnDisk(s.disk, log)
  }

  /** A block put with one reference and given another. */
  lemma PutAndAdd(hash: Bytes -> BlockID, buf: Bytes, half: ServerHalf, calls: seq<Call>)
    requires calls == [PutCall(hash(buf), Context(1, 0, 0), buf, half), AddCall(hash(buf), Context(1, 0, 7))]
    ensures BothHeld(After(hash, calls), LogAfter(hash, calls), hash(buf), Context(1, 0, 0), Context(1, 0, 7))
    ensures InSync(After(hash, calls))
  {
    var id, mine, other := hash(buf), Context(1, 0, 0), Context(1, 0, 7);
    var one := [calls[0]];
    FirstPut(hash, mine, buf, half);
    AfterMore(hash, one, calls[1]);
    assert one + [calls[1]] == calls && calls[..|calls| - 1] == one;
    assert After(hash, one).refs[id][0].status == Live;
    assert After(hash, calls).refs[id] == map[0 := RefEntry(Live, mine), 7 := RefEntry(Live, other)];
    assert Orderly(hash, calls);
    RunSync(hash, calls);
    RunJournal(hash, calls);
    RebuiltIs(After(hash, calls).disk.journal, LogAfter(hash, calls));
  }

  /** Removing two references of which the second is held under another context drops the first from memory only. */
  lemma RefusedRemovalDesyncs(hash: Bytes -> BlockID, buf: Bytes, half: ServerHalf)
    ensures var id, mine, other, stranger := hash(buf), Context(1, 0, 0), Context(1, 0, 7), Context(2, 0, 7);
            var calls := [PutCall(id, mine, buf, half), AddCall(id, other), RemoveCall(id, [mine, stranger])];
            !InSync(After(hash, calls))
  {
    var id, mine, other, stranger := hash(buf), Context(1, 0, 0), Context(1, 0, 7), Context(2, 0, 7);
    var two, rm := [PutCall(id, mine, buf, half), AddCall(id, other)], RemoveCall(id, [mine, stranger]);
    PutAndAdd(hash, buf, half, two);
    AfterMore(hash, two, rm);
    assert two + [rm] == [two[0], two[1], rm];
    RefusedMidway(After(hash, two).refs[id]);
    StepSync(hash, After(hash, two), rm, LogAfter(hash, two));
  }

  /** If then the remaining reference is removed, a restart finds the first one again, and its block is gone. */
  lemma RefusedRemovalLoses(hash: Bytes -> BlockID, buf: Bytes, half: ServerHalf, calls: seq<Call>)
    requires var id, mine, other, stranger := hash(buf), Context(1, 0, 0), Context(1, 0, 7), Context(2, 0, 7);
             calls == [PutCall(id, mine, buf, half), AddCall(id, other), RemoveCall(id, [mine, stranger]),
                       RemoveCall(id, [other])]
    ensures var id, o := hash(buf), Restart(After(hash, calls).disk);
            o.Some? && id in o.value.refs && 0 in o.value.refs[id] && !StoredBlock(hash, o.value.disk, id)
  {
    var three := calls[..|calls| - 1];
    var two := three[..|three| - 1];
    PutAndAdd(hash, buf, half, two);
    LostThen(hash, After(hash, two), LogAfter(hash, two), hash(buf), calls[2], calls[3]);
    assert After(hash, three) == Step(hash, After(hash, two), calls[2]).s;
  }

  lemma LostThen(hash: Bytes -> BlockID, s: State, log: seq<Entry>, id: BlockID, refused: Call, rest: Call)
    requires BothHeld(s, log, id, Context(1, 0, 0), Context(1, 0, 7)) && |log| < D.ORDINALS
    requires refused == RemoveCall(id, [Context(1, 0, 0), Context(2, 0, 7)])
    requires rest == RemoveCall(id, [Context(1, 0, 7)])
    ensures var o := Restart(Step(hash, Step(hash, s, refused).s, rest).s.disk);
            o.Some? && id in o.value.refs && 0 in o.value.refs[id] && !StoredBlock(hash, o.value.disk, id)
  {
    RefusedStep(hash, s, log, id);
    LostIn(hash, Step(hash, s, refused).s, log, id, rest, s.refs[id]);
  }

  lemma LostIn(hash: Bytes -> BlockID, s: State, log: seq<Entry>, id: BlockID, rest: Call, held: RefMap)
    requires OnDisk(s.disk, log) && |log| < D.ORDINALS && rest == RemoveCall(id, [Context(1, 0, 7)])
    requires held == map[0 := RefEntry(Live, Context(1, 0, 0)), 7 := RefEntry(Live, Context(1, 0, 7))]
    requires id in s.refs && s.refs[id] == Without(held, 0) && RefsOf(Replay(log).value, id) == held
    ensures var o := Restart(Step(hash, s, rest).s.disk);
            o.Some? && id in o.value.refs && 0 in o.value.refs[id] && !StoredBlock(hash, o.value.disk, id)
  {
    assert s.refs[id] == map[7 := RefEntry(Live, Context(1, 0, 7))];
    LastRemoved(hash, s, log, id, rest.cs);
    assert 0 in Without(held, 7);
  }

  /** After that removal the first reference is on disk only. */
  lemma RefusedStep(hash: Bytes -> BlockID, s: State, log: seq<Entry>, id: BlockID)
    requires BothHeld(s, log, id, Context(1, 0, 0), Context(1, 0, 7)) && |log| < D.ORDINALS
    ensures var s' := Step(hash, s, RemoveCall(id, [Context(1, 0, 0), Context(2, 0, 7)])).s;
            OnDisk(s'.disk, log) && id in s'.refs && s'.refs[id] == Without(s.refs[id], 0)
  {
    var refused := RemoveCall(id, [Context(1, 0, 0), Context(2, 0, 7)]);
    RefusedMidway(s.refs[id]);
    StepFollows(hash, s, refused, log);
  }

  lemma DropOne(refs: RefMap, cs: seq<Context>)
    requires |cs| == 1
    ensures DropEach(refs, cs) == Without(refs, cs[0].nonce)
    ensures refs == map[cs[0].nonce := RefEntry(Live, cs[0])] ==> Each(Drop, refs, cs) == Batch(map[], None)
  {
    assert cs[1..] == [];
    assert refs == map[cs[0].nonce := RefEntry(Live, cs[0])] ==> Without(refs, cs[0].nonce) == map[];
  }

  /** The removal of a reference that memory has alone, and a restart. */
  lemma LastRemoved(hash: Bytes -> BlockID, s: State, log: seq<Entry>, id: BlockID, cs: seq<Context>)
    requires OnDisk(s.disk, log) && |log| < D.ORDINALS && |cs| == 1
    requires id in s.refs && s.refs[id] == map[cs[0].nonce := RefEntry(Live, cs[0])]
    ensures var o := Restart(Step(hash, s, RemoveCall(id, cs)).s.disk);
            && o.Some? && !StoredBlock(hash, o.value.disk, id)
            && RefsOf(o.value.refs, id) == Without(RefsOf(Replay(log).value, id), cs[0].nonce)
  {
    var rest := RemoveCall(id, cs);
    DropOne(s.refs[id], cs);
    DropOne(RefsOf(Replay(log).value, id), cs);
    var e := EffectOf(hash, s, rest);
    assert e == Effect(s.refs[id := map[]], [RemoveBlock(id)], Some(Entry(RemoveRefs, id, cs)), Count(0));
    StepFollows(hash, s, rest, log);
    ReplayMore(log, e.entry.value);
    BlockRemoved(s.disk, e, id);
  }

  lemma BlockRemoved(d: Disk, e: Effect, id: BlockID)
    requires |e.writes| == 1 && e.writes[0] == RemoveBlock(id)
    ensures id !in Carry(d, e).s.disk.data
  {
    CarryIs(d, e);
    assert DoFirst(d, e.writes, 1) == Do(d, RemoveBlock(id));
  }

  lemma RefusedMidway(refs: RefMap)
    requires refs == map[0 := RefEntry(Live, Context(1, 0, 0)), 7 := RefEntry(Live, Context(1, 0, 7))]
    ensures StopsMidway(Drop, refs, [Context(1, 0, 0), Context(2, 0, 7)])
    ensures Each(Drop, refs, [Context(1, 0, 0), Context(2, 0, 7)]) == Batch(Without(refs, 0), Some(Refused))
  {
    var mine, stranger := Context(1, 0, 0), Context(2, 0, 7);
    assert Obstacle(Drop, Without(refs, 0), stranger) == Some(Refused);
    assert [mine, stranger][1..] == [stranger];
  }

  /** Putting a block and then being stopped while removing its only reference: the reference is back, the block
      gone. */
  lemma InterruptedRemoval(hash: Bytes -> BlockID, buf: Bytes, half: ServerHalf)
    ensures var id, mine := hash(buf), Context(1, 0, 0);
            var s := After(hash, [PutCall(id, mine, buf, half)]);
            var ws := Writes(s.disk, EffectOf(hash, s, RemoveCall(id, [mine])));
            && |ws| >= 1
            && var d := DoFirst(s.disk, ws, 1);
               Restart(d) == Some(State(s.refs, d)) && id in s.refs && !Stored(hash, s.refs, d)
  {
    var id, mine := hash(buf), Context(1, 0, 0);
    var one := [PutCall(id, mine, buf, half)];
    FirstPut(hash, mine, buf, half);
    RunSync(hash, one);
    RunJournal(hash, one);
    RunStored(hash, one);
    var s := After(hash, one);
    assert Without(s.refs[id], 0) == map[];
    assert |[mine][1..]| == 0;
    assert Each(Drop, s.refs[id], [mine]) == Batch(map[], None);
    var rm := RemoveCall(id, [mine]);
    D.AppendStops(s.disk.journal, LogAfter(hash, one), EffectOf(hash, s, rm).entry.value, 0);
    Interruption(hash, s, rm, LogAfter(hash, one), 1);
  }

  /** Being stopped in the very first Put, after its fourth write: the server does not start again. */
  lemma InterruptedFirstPut(hash: Bytes -> BlockID, buf: Bytes, half: ServerHalf)
    ensures var put := PutCall(hash(buf), Context(1, 0, 0), buf, half);
            AfterEvents(hash, [Stopped(put, 4)]) == None
  {
    var mine := Context(1, 0, 0);
    var put := PutCall(hash(buf), mine, buf, half);
    var one := [Stopped(put, 4)];
    assert |one[..|one| - 1]| == 0;
    assert AfterEvents(hash, one[..|one| - 1]) == Some(EMPTY);
    FirstPut(hash, mine, buf, half);
    var none: seq<Entry> := LogOf(hash, one[..|one| - 1]);
    D.AppendStops(EMPTY.disk.journal, none, EffectOf(hash, EMPTY, put).entry.value, 0);
    HappenFollows(hash, EMPTY, one[0], none);
  }

  // ---------- The journal ----------

  /** Block id is still to do, or listed if it has references. */
  ghost predicate ListedSo(refs: AllRefs, todo: AllRefs, res: map<BlockID, map<Nonce, Status>>, id: BlockID) {
    if id in todo then id in refs && refs[id] == todo[id] && id !in res
    else if id in refs && |refs[id]| != 0 then id in res && res[id] == Statuses(refs[id])
    else id !in res
  }

  lemma AllListed(refs: AllRefs, todo: AllRefs, res: map<BlockID, map<Nonce, Status>>)
    requires |todo| == 0 && forall id :: ListedSo(refs, todo, res, id)
    ensures res == GetAll(refs)
  {
    var all := GetAll(refs);
    forall id
      ensures id in res <==> id in all
      ensures id in res ==> res[id] == all[id]
    {
      assert ListedSo(refs, todo, res, id);
    }
    SameMap(res, all);
  }

  class Journal {
    const hash: Bytes -> BlockID
    const j: D.DiskJournal<Entry>
    var data: map<BlockID, Bytes>
    var halves: map<BlockID, ServerHalf>
    var refs: AllRefs
    var isShutdown: bool

    ghost function Abstract(): State
      reads this, j
    {
      State(refs, Disk(data, halves, j.files))
    }

    constructor (hash: Bytes -> BlockID, disk: Disk)
      ensures this.hash == hash && Abstract() == State(map[], disk) && !isShutdown && fresh(j)
    {
      this.hash := hash;
      j := new D.DiskJournal(disk.journal);
      data, halves, refs, isShutdown := disk.data, disk.halves, map[], false;
    }

    /** Open a journal directory: the references are those its files give, and there is no journal without them. */
    static method Open(hash: Bytes -> BlockID, disk: Disk) returns (journal: Journal?)
      ensures journal != null <==> Restart(disk).Some?
      ensures journal != null ==> fresh(journal) && fresh(journal.j) && journal.hash == hash && !journal.isShutdown
      ensures journal != null ==> Some(journal.Abstract()) == Restart(disk)
    {
      journal := new Journal(hash, disk);
      var r := journal.ReadJournal();
      if r.Err? {
        return null;
      }
      journal.refs := r.value;
    }

    method GetData(id: BlockID, c: Context) returns (reply: Reply)
      ensures reply == if isShutdown then Failed(Shutdown) else Get(hash, Abstract(), id, c)
    {
      if isShutdown {
        return Failed(Shutdown);
      }
      reply := GetDataLocked(id, c);
    }

    method GetDataLocked(id: BlockID, c: Context) returns (reply: Reply)
      ensures reply == Get(hash, Abstract(), id, c)
    {
      if id !in refs || c.nonce !in refs[id] {
        return Failed(NonExistent);
      }
      if refs[id][c.nonce].context != c {
        return Failed(Refused);
      }
      if id !in data {
        return Failed(NonExistent);
      }
      if id !in halves {
        return Failed(NonExistent);
      }
      if hash(data[id]) != id {
        return Failed(Refused);
      }
      return Data(data[id], halves[id]);
    }

    method PutRefEntryLocked(id: BlockID, c: Context, status: Status) returns (ok: bool)
      modifies this`refs
      ensures ok <==> Fits(RefsOf(old(refs), id), c)
      ensures refs == if ok then old(refs)[id := With(RefsOf(old(refs), id), c, status)] else old(refs)
    {
      if id in refs && c.nonce in refs[id] && refs[id][c.nonce].context != c {
        return false;
      }
      if id !in refs {
        refs := refs[id := map[]];
      }
      refs := refs[id := refs[id][c.nonce := RefEntry(status, c)]];
      return true;
    }

    /** Append an entry, with the given reply if that succeeds. */
    method AppendJournalEntryLocked(op: OpName, id: BlockID, cs: seq<Context>, done: Reply) returns (reply: Reply)
      modifies j
      ensures var plan := D.AppendPlan(old(j.files), None, Entry(op, id, cs));
              && j.files == D.Written(old(j.files), plan.writes)
              && reply == if plan.ok then done else Failed(JournalFailed)
    {
      var ok := j.AppendJournalEntry(None, Entry(op, id, cs));
      return if ok then done else Failed(JournalFailed);
    }

    method PutData(id: BlockID, c: Context, buf: Bytes, half: ServerHalf) returns (reply: Reply)
      modifies this`refs, this`data, this`halves, j
      ensures var s := old(Abstract());
              Answer(Abstract(), reply) == if !ValidPut(hash, id, c, buf) then Answer(s, Failed(Refused))
                                           else if isShutdown then Answer(s, Failed(Shutdown))
                                           else Carry(s.disk, Put(hash, s, id, c, buf, half))
    {
      if !ValidPut(hash, id, c, buf) {
        return Failed(Refused);
      }
      if isShutdown {
        return Failed(Shutdown);
      }
      ghost var s := Abstract();
      ghost var e := Put(hash, s, id, c, buf, half);
      var existing := GetDataLocked(id, c);
      if existing.Failed? && existing.why != NonExistent {
        return existing;
      }
      if existing.Data? && existing.half != half {
        return Failed(Refused);
      }
      data := data[id := buf];
      halves := halves[id := half];
      var ok := PutRefEntryLocked(id, c, Live);
      TwoWrites(s.disk, e.writes);
      CarryIs(s.disk, e);
      reply := AppendJournalEntryLocked(BlockPut, id, [c], Done);
    }

    method AddBlockReference(id: BlockID, c: Context) returns (reply: Reply)
      modifies this`refs, j
      ensures var s := old(Abstract());
              Answer(Abstract(), reply) == if isShutdown then Answer(s, Failed(Shutdown))
                                           else Carry(s.disk, AddReference(s, id, c))
    {
      if isShutdown {
        return Failed(Shutdown);
      }
      CarryIs(Abstract().disk, AddReference(Abstract(), id, c));
      if id !in refs {
        return Failed(NonExistent);
      }
      if !HasLive(refs[id]) {
        return Failed(AllArchived);
      }
      var ok := PutRefEntryLocked(id, c, Live);
      if !ok {
        return Failed(Refused);
      }
      reply := AppendJournalEntryLocked(AddRef, id, [c], Done);
    }

    method RemoveBlockReferences(id: BlockID, cs: seq<Context>) returns (reply: Reply)
      modifies this`refs, this`data, this`halves, j
      ensures var s := old(Abstract());
              Answer(Abstract(), reply) == if isShutdown then Answer(s, Failed(Shutdown))
                                           else Carry(s.disk, RemoveReferences(s, id, cs))
    {
      if isShutdown {
        return Failed(Shutdown);
      }
      ghost var s := Abstract();
      CarryIs(s.disk, RemoveReferences(s, id, cs));
      if id !in refs {
        return Count(0);
      }
      var left := refs[id];
      var i := 0;
      while i < |cs|
        invariant i <= |cs| && refs == s.refs
        invariant Each(Drop, refs[id], cs) == Each(Drop, left, cs[i..])
      {
        var obstacle := Obstacle(Drop, left, cs[i]);
        if obstacle.Some? {
          refs := refs[id := left];
          return Failed(obstacle.value);
        }
        assert cs[i..][1..] == cs[i + 1..];
        left := Without(left, cs[i].nonce);
        i := i + 1;
      }
      refs := refs[id := left];
      if |left| == 0 {
        data := WithoutBlock(data, id);
        halves := WithoutBlock(halves, id);
      }
      reply := AppendJournalEntryLocked(RemoveRefs, id, cs, Count(|left|));
    }

    method ArchiveBlockReferences(id: BlockID, cs: seq<Context>) returns (reply: Reply)
      modifies this`refs, j
      ensures var s := old(Abstract());
              Answer(Abstract(), reply) == if isShutdown then Answer(s, Failed(Shutdown))
                                           else Carry(s.disk, ArchiveReferences(s, id, cs))
    {
      if isShutdown {
        return Failed(Shutdown);
      }
      ghost var s := Abstract();
      CarryIs(s.disk, ArchiveReferences(s, id, cs));
      var left := RefsOf(refs, id);
      var i := 0;
      while i < |cs|
        invariant i <= |cs| && refs == s.refs && (id !in refs ==> i == 0 && left == map[])
        invariant Each(Archive, RefsOf(refs, id), cs) == Each(Archive, left, cs[i..])
      {
        var obstacle := Obstacle(Archive, left, cs[i]);
        if obstacle.Some? {
          if id in refs {
            refs := refs[id := left];
          }
          return Failed(obstacle.value);
        }
        assert cs[i..][1..] == cs[i + 1..];
        left := With(left, cs[i], Archived);
        i := i + 1;
      }
      if id in refs {
        refs := refs[id := left];
      }
      reply := AppendJournalEntryLocked(ArchiveRefs, id, cs, Done);
    }

    /** The statuses of all references, but for blocks without any. */
    method AllReferences() returns (all: Option<map<BlockID, map<Nonce, Status>>>)
      ensures all == if isShutdown then None else Some(GetAll(refs))
    {
      if isShutdown {
        return None;
      }
      var res: map<BlockID, map<Nonce, Status>> := map[];
      var todo := refs;
      while |todo| != 0
        invariant forall id :: ListedSo(refs, todo, res, id)
        decreases |todo|
      {
        var id := AnyOf(todo.Keys);
        ghost var res0, todo0 := res, todo;
        assert ListedSo(refs, todo, res, id);
        if |todo[id]| != 0 {
          res := res[id := Statuses(todo[id])];
        }
        todo := todo - {id};
        forall x
          ensures ListedSo(refs, todo, res, x)
        {
          assert ListedSo(refs, todo0, res0, x);
        }
      }
      AllListed(refs, todo, res);
      return Some(res);
    }

    /** Stop serving; the result says whether the references in memory are those of the journal on disk. */
    method ShutDown() returns (ok: bool)
      modifies this`isShutdown
      ensures isShutdown && (ok <==> InSync(Abstract()))
    {
      isShutdown := true;
      var again := ReadJournal();
      ok := again == Ok(refs);
    }

    /** Rebuild the references from the journal on disk, entry by entry. */
    method ReadJournal() returns (r: Result<AllRefs>)
      ensures r == Rebuilt(j.files)
    {
      var rebuilt: AllRefs := map[];
      var first := D.ReadOrdinal(j.files, D.Earliest);
      if first.NotExist? {
        return Ok(rebuilt);
      } else if first.Invalid? {
        return Err;
      }
      var last := D.ReadOrdinal(j.files, D.Latest);
      if !last.Valid? {
        return Err;
      }
      ghost var read: seq<Entry> := [];
      var i := first.o;
      D.PrependNothing(D.ReadFrom(j.files, i, last.o));
      while i <= last.o
        invariant D.ReadFrom(j.files, first.o, last.o) == D.Prepend(read, D.ReadFrom(j.files, i, last.o))
        invariant Replay(read) == Ok(rebuilt)
        decreases last.o + 1 - i
      {
        D.PrependStep(j.files, read, i, last.o);
        var e := D.ReadEntry(j.files, i);
        if e.None? {
          return Err;
        }
        ReplayMore(read, e.value);
        var next := Apply(rebuilt, e.value);
        read := read + [e.value];
        if next.Err? {
          ReplayStops(read, D.ReadFrom(j.files, i + 1, last.o));
          return Err;
        }
        rebuilt := next.value;
        i := i + 1;
      }
      assert read + [] == read;
      return Ok(rebuilt);
    }
  }

  lemma {:induction false} ErrorsStay(log: seq<Entry>, k: nat)
    requires k <= |log| && Replay(log[..k]).Err?
    ensures Replay(log).Err?
  {
    if k == |log| {
      assert log[..k] == log;
    } else {
      assert log[..|log| - 1][..k] == log[..k];
      ErrorsStay(log[..|log| - 1], k);
    }
  }

  /** Entries that cannot be replayed make the whole journal unreadable, whatever follows. */
  lemma ReplayStops(read: seq<Entry>, rest: Result<seq<Entry>>)
    requires Replay(read).Err?
    ensures var r := D.Prepend(read, rest); r.Ok? ==> Replay(r.value).Err?
  {
    if rest.Ok? {
      assert (read + rest.value)[..|read|] == read;
      ErrorsStay(read + rest.value, |read|);
    }
  }
}

/** The operations that happened to one node, and the collapse of those that cancel out (libkbfs/cr_chains.go). */
module ChainCollapse {
  import opened Ops
  import opened Outcomes

  predicate Creates(op: Op, n: string) {
    op.CreateOp? && op.newName == n
  }

  predicate Removes(op: Op, n: string) {
    op.RmOp? && op.oldName == n
  }

  predicate Touches(op: Op, n: string) {
    Creates(op, n) || Removes(op, n)
  }

  // ---------- What collapse computes ----------

  /** The create of n that is still standing after ops, if the last operation on n was a create. */
  function SeenCreate(ops: seq<Op>, n: string): Option<nat> {
    if ops == [] then None
    else
      var k := |ops| - 1;
      if Creates(ops[k], n) then Some(k)
      else if Removes(ops[k], n) then None
      else SeenCreate(ops[..k], n)
  }

  /** The indices that the last operation of ops makes redundant. */
  function NewlyCancelled(ops: seq<Op>): set<nat>
    requires ops != []
  {
    var k := |ops| - 1;
    match ops[k]
    case CreateOp(_, n, _, _, renamed) =>
      var seen := SeenCreate(ops[..k], n);
      if renamed && seen.Some? then {seen.value} else {}
    case RmOp(_, n, _) =>
      var seen := SeenCreate(ops[..k], n);
      if seen.Some? then {seen.value, k} else {}
    case _ => {}
  }

  function Cancelled(ops: seq<Op>): set<nat> {
    if ops == [] then {} else Cancelled(ops[..|ops| - 1]) + NewlyCancelled(ops)
  }

  /** ops without the operations at the dropped indices, order kept. */
  function Without(ops: seq<Op>, drop: set<nat>): seq<Op> {
    if ops == [] then []
    else
      var k := |ops| - 1;
      Without(ops[..k], drop) + if k in drop then [] else [ops[k]]
  }

  function Collapsed(ops: seq<Op>): seq<Op> {
    Without(ops, Cancelled(ops))
  }

  lemma {:induction false} WithoutNothing(ops: seq<Op>)
    ensures Without(ops, {}) == ops
  {
    if ops != [] {
      WithoutNothing(ops[..|ops| - 1]);
    }
  }

  /** One node's operations over a run of metadata updates, with its first and its latest pointer. */
  class CrChain {
    var ops: seq<Op>
    var original: BlockPointer
    var mostRecent: BlockPointer

    constructor (original: BlockPointer, mostRecent: BlockPointer)
      ensures this.original == original && this.mostRecent == mostRecent && ops == []
    {
      this.ops := [];
      this.original := original;
      this.mostRecent := mostRecent;
    }

    method Collapse()
      modifies this`ops
      ensures ops == Collapsed(old(ops))
    {
      var createsSeen: map<string, nat> := map[];
      var indicesToRemove: set<nat> := {};
      for i := 0 to |ops|
        invariant forall n :: n in createsSeen <==> SeenCreate(ops[..i], n).Some?
        invariant forall n :: n in createsSeen ==> SeenCreate(ops[..i], n) == Some(createsSeen[n])
        invariant indicesToRemove == Cancelled(ops[..i])
        invariant ops == old(ops)
      {
        assert ops[..i + 1][..i] == ops[..i];
        match ops[i]
        case CreateOp(_, n, _, _, renamed) =>
          if renamed && n in createsSeen {
            indicesToRemove := indicesToRemove + {createsSeen[n]};
          }
          createsSeen := createsSeen[n := i];
        case RmOp(_, n, _) =>
          if n in createsSeen {
            indicesToRemove := indicesToRemove + {createsSeen[n], i};
            createsSeen := createsSeen - {n};
          }
        case _ =>
      }
      assert ops[..|ops|] == ops;
      if indicesToRemove != {} {
        var kept: seq<Op> := [];
        for i := 0 to |ops|
          invariant kept == Without(ops[..i], indicesToRemove)
          invariant ops == old(ops)
        {
          assert ops[..i + 1][..i] == ops[..i];
          if i !in indicesToRemove {
            kept := kept + [ops[i]];
          }
        }
        assert ops[..|ops|] == ops;
        ops := kept;
      } else {
        WithoutNothing(ops);
      }
    }
  }

  // ---------- Which operations go ----------

  /** The operations at i and j are neighbours among those on one name, the first creates it, and the second
      removes it or renames something over it. */
  ghost predicate Undoes(ops: seq<Op>, i: nat, j: nat) {
    && i < j < |ops|
    && ops[i].CreateOp?
    && var n := ops[i].newName;
    && (Removes(ops[j], n) || (Creates(ops[j], n) && ops[j].renamed))
    && forall k :: i < k < j ==> !Touches(ops[k], n)
  }

  /** SeenCreate is the closest operation on n from the end, when that is a create. */
  lemma {:induction false} SeenCreateIsLast(ops: seq<Op>, n: string)
    ensures SeenCreate(ops, n).Some? ==>
              var k := SeenCreate(ops, n).value;
              k < |ops| && Creates(ops[k], n) && forall j :: k < j < |ops| ==> !Touches(ops[j], n)
    ensures SeenCreate(ops, n).None? ==>
              forall k :: 0 <= k < |ops| && Creates(ops[k], n) ==> exists j :: k < j < |ops| && Removes(ops[j], n)
  {
    if ops != [] {
      var p := ops[..|ops| - 1];
      SeenCreateIsLast(p, n);
      if !Touches(ops[|p|], n) && SeenCreate(p, n).None? {
        forall k | 0 <= k < |ops| && Creates(ops[k], n)
          ensures exists j :: k < j < |ops| && Removes(ops[j], n)
        {
          assert Creates(p[k], n);
          var j :| k < j < |p| && Removes(p[j], n);
          assert Removes(ops[j], n);
        }
      }
    }
  }

  /** The step of CancelledRule: what the last operation cancels is exactly the pairs it is the second half of. */
  lemma NewlyCancelledRule(ops: seq<Op>, i: nat)
    requires ops != []
    ensures i in NewlyCancelled(ops) <==>
              || Undoes(ops, i, |ops| - 1)
              || (i == |ops| - 1 && ops[i].RmOp? && exists h :: Undoes(ops, h, i))
  {
    var k := |ops| - 1;
    var p := ops[..k];
    if Touches(ops[k], if ops[k].CreateOp? then ops[k].newName else if ops[k].RmOp? then ops[k].oldName else "") {
      var n := if ops[k].CreateOp? then ops[k].newName else ops[k].oldName;
      SeenCreateIsLast(p, n);
      var seen := SeenCreate(p, n);
      if seen.Some? {
        assert forall j :: seen.value < j < k ==> ops[j] == p[j];
        assert Undoes(ops, seen.value, k) <==> ops[k].RmOp? || ops[k].renamed;
        forall h: nat | Undoes(ops, h, k)
          ensures h == seen.value
        {
          assert h < k && p[h] == ops[h];
          assert Touches(ops[h], n);
        }
      } else {
        forall h: nat
          ensures !Undoes(ops, h, k)
        {
          if h < k && Creates(p[h], n) {
            var j :| h < j < |p| && Removes(p[j], n);
            assert Touches(ops[j], n);
          }
        }
      }
    }
  }

  /** The documented rule, for every list: a create is dropped exactly when the next operation on its name removes it
      or renames over it, and a remove is dropped exactly when the operation on its name before it is a create. */
  lemma {:induction false} CancelledRule(ops: seq<Op>, i: nat)
    ensures i in Cancelled(ops) <==>
              (exists j :: Undoes(ops, i, j)) || (i < |ops| && ops[i].RmOp? && exists h :: Undoes(ops, h, i))
  {
    if ops != [] {
      var k := |ops| - 1;
      var p := ops[..k];
      CancelledRule(p, i);
      NewlyCancelledRule(ops, i);
      assert forall a: nat, b: nat | b < k :: Undoes(p, a, b) <==> Undoes(ops, a, b) by {
        forall a: nat, b: nat | b < k
          ensures Undoes(p, a, b) <==> Undoes(ops, a, b)
        {
          assert forall c :: 0 <= c < k ==> p[c] == ops[c];
        }
      }
      if exists j :: Undoes(ops, i, j) {
        var j: nat :| Undoes(ops, i, j);
        if j < k {
          assert Undoes(p, i, j);
        }
      }
      if i < k {
        assert p[i] == ops[i];
      }
    }
  }

  // ---------- What a chain does to a directory ----------

  /** A directory entry: one that was there before the chain, or the one made by a create. */
  datatype Entry = Existing(id: nat) | Made(maker: Op)

  type Directory = map<string, Entry>

  function Apply(op: Op, d: Directory): Directory {
    match op
    case CreateOp(_, n, _, _, _) => d[n := Made(op)]
    case RmOp(_, n, _) => d - {n}
    case _ => d
  }

  function Replay(ops: seq<Op>, d: Directory): Directory {
    if ops == [] then d else Apply(ops[|ops| - 1], Replay(ops[..|ops| - 1], d))
  }

  /** The operations of a list that are on n. */
  ghost function On(ops: seq<Op>, n: string): seq<Op> {
    if ops == [] then []
    else
      var k := |ops| - 1;
      On(ops[..k], n) + if Touches(ops[k], n) then [ops[k]] else []
  }

  ghost function Lookup(d: Directory, n: string): Option<Entry> {
    if n in d then Some(d[n]) else None
  }

  /** The entry under a name after the operations on it: the last one decides. */
  ghost function Outcome(on: seq<Op>, before: Option<Entry>): Option<Entry> {
    if on == [] then before
    else if on[|on| - 1].CreateOp? then Some(Made(on[|on| - 1]))
    else None
  }

  lemma {:induction false} ReplayAt(ops: seq<Op>, n: string, d: Directory)
    ensures Lookup(Replay(ops, d), n) == Outcome(On(ops, n), Lookup(d, n))
  {
    if ops != [] {
      ReplayAt(ops[..|ops| - 1], n, d);
    }
  }

  lemma OnSnoc(ops: seq<Op>, op: Op, n: string)
    ensures On(ops + [op], n) == On(ops, n) + if Touches(op, n) then [op] else []
  {
  }

  lemma OnWithoutStep(ops: seq<Op>, drop: set<nat>, n: string)
    requires ops != []
    ensures var k := |ops| - 1;
            On(Without(ops, drop), n) ==
            On(Without(ops[..k], drop), n) + if k !in drop && Touches(ops[k], n) then [ops[k]] else []
  {
    var k := |ops| - 1;
    OnSnoc(Without(ops[..k], drop), ops[k], n);
    assert k in drop ==> Without(ops, drop) == Without(ops[..k], drop);
  }

  /** Dropping an index that is out of range, or not on n, does not change what is kept on n. */
  lemma {:induction false} DropElsewhere(ops: seq<Op>, drop: set<nat>, k: nat, n: string)
    requires k >= |ops| || !Touches(ops[k], n)
    ensures On(Without(ops, drop + {k}), n) == On(Without(ops, drop), n)
  {
    if ops != [] {
      DropElsewhere(ops[..|ops| - 1], drop, k, n);
      OnWithoutStep(ops, drop, n);
      OnWithoutStep(ops, drop + {k}, n);
    }
  }

  /** A standing create that is kept is the last operation kept on its name, and dropping it takes off just that. */
  lemma {:induction false} DropStanding(ops: seq<Op>, drop: set<nat>, n: string)
    requires SeenCreate(ops, n).Some? && SeenCreate(ops, n).value !in drop
    ensures var k := SeenCreate(ops, n).value;
            var kept := On(Without(ops, drop), n);
            && k < |ops|
            && kept != [] && kept[|kept| - 1] == ops[k]
            && On(Without(ops, drop + {k}), n) == kept[..|kept| - 1]
  {
    var k := SeenCreate(ops, n).value;
    var p := ops[..|ops| - 1];
    OnWithoutStep(ops, drop, n);
    OnWithoutStep(ops, drop + {k}, n);
    var x := On(Without(p, drop), n);
    if Creates(ops[|p|], n) {
      DropElsewhere(p, drop, k, n);
      assert (x + [ops[k]])[..|x|] == x;
    } else {
      DropStanding(p, drop, n);
      assert On(Without(ops, drop), n) == x + [] == x;
      assert On(Without(ops, drop + {k}), n) == x[..|x| - 1] + [] == x[..|x| - 1];
    }
  }

  lemma {:induction false} CancelledInRange(ops: seq<Op>)
    ensures forall k :: k in Cancelled(ops) ==> k < |ops|
  {
    if ops != [] {
      var k := |ops| - 1;
      var p := ops[..k];
      CancelledInRange(p);
      if ops[k].CreateOp? || ops[k].RmOp? {
        SeenCreateIsLast(p, if ops[k].CreateOp? then ops[k].newName else ops[k].oldName);
      }
    }
  }

  lemma {:induction false} StandingIsKept(ops: seq<Op>, n: string)
    requires SeenCreate(ops, n).Some?
    ensures SeenCreate(ops, n).value !in Cancelled(ops)
  {
    var k := |ops| - 1;
    var p := ops[..k];
    CancelledInRange(p);
    var m := if ops[k].CreateOp? then ops[k].newName else if ops[k].RmOp? then ops[k].oldName else "";
    SeenCreateIsLast(p, m);
    SeenCreateIsLast(p, n);
    if !Creates(ops[k], n) {
      StandingIsKept(p, n);
    }
  }

  /** Cancelling the standing create of m pops it from the operations kept on m and leaves other names alone. */
  lemma CancelStanding(p: seq<Op>, m: string, n: string)
    requires SeenCreate(p, m).Some?
    ensures var s := SeenCreate(p, m).value;
            var gone := Cancelled(p);
            var before := On(Collapsed(p), n);
            && s < |p| && (m == n ==> before != [] && before[|before| - 1] == p[s])
            && On(Without(p, gone + {s}), n) == (if m == n then before[..|before| - 1] else before)
            && On(Without(p, gone + {s, |p|}), n) == (if m == n then before[..|before| - 1] else before)
  {
    var s := SeenCreate(p, m).value;
    var gone := Cancelled(p);
    SeenCreateIsLast(p, m);
    if m == n {
      StandingIsKept(p, n);
      DropStanding(p, gone, n);
    } else {
      DropElsewhere(p, gone, s, n);
    }
    DropElsewhere(p, gone + {s}, |p|, n);
    assert gone + {s, |p|} == gone + {s} + {|p|};
  }

  /** How the newly cancelled indices change what is kept of the earlier operations on n. */
  lemma EarlierKept(ops: seq<Op>, n: string)
    requires ops != []
    ensures var k := |ops| - 1;
            var p := ops[..k];
            var before := On(Collapsed(p), n);
            var seen := SeenCreate(p, n);
            var pops := seen.Some? && (Removes(ops[k], n) || (Creates(ops[k], n) && ops[k].renamed));
            && (seen.Some? ==> seen.value < k && before != [] && before[|before| - 1] == ops[seen.value])
            && On(Without(p, Cancelled(ops)), n) == if pops then before[..|before| - 1] else before
  {
    var k := |ops| - 1;
    var p := ops[..k];
    if SeenCreate(p, n).Some? {
      CancelStanding(p, n, n);
    }
    if NewlyCancelled(ops) == {} {
      assert Cancelled(ops) == Cancelled(p);
    } else {
      CancelStanding(p, if ops[k].CreateOp? then ops[k].newName else ops[k].oldName, n);
    }
  }

  /** Collapse is a stack per name: a create is pushed, a renamed create first pops the create under it, and a remove
      pops the create under it or, when there is none, is pushed. */
  lemma CollapsedStep(ops: seq<Op>, n: string)
    requires ops != []
    ensures var k := |ops| - 1;
            var before := On(Collapsed(ops[..k]), n);
            var after := On(Collapsed(ops), n);
            var seen := SeenCreate(ops[..k], n);
            && (seen.Some? ==> seen.value < k && before != [] && before[|before| - 1] == ops[seen.value])
            && (!Touches(ops[k], n) ==> after == before)
            && (Creates(ops[k], n) ==>
                  after == (if seen.Some? && ops[k].renamed then before[..|before| - 1] else before) + [ops[k]])
            && (Removes(ops[k], n) ==> after == if seen.Some? then before[..|before| - 1] else before + [ops[k]])
  {
    var k := |ops| - 1;
    EarlierKept(ops, n);
    OnWithoutStep(ops, Cancelled(ops), n);
    CancelledInRange(ops[..k]);
    if Creates(ops[k], n) && ops[k].renamed && SeenCreate(ops[..k], n).Some? {
      SeenCreateIsLast(ops[..k], n);
    }
  }

  // ---------- When collapsing preserves meaning ----------

  /** Whether the collapsed chain would leave n present if its standing create, if any, were cancelled too. */
  predicate Leftover(ops: seq<Op>, n: string, present: bool) {
    if ops == [] then present
    else
      var k := |ops| - 1;
      var p := ops[..k];
      var seen := SeenCreate(p, n).Some?;
      if Creates(ops[k], n) then (seen && !ops[k].renamed) || Leftover(p, n, present)
      else if Removes(ops[k], n) then seen && Leftover(p, n, present)
      else Leftover(p, n, present)
  }

  /** The last operation on n is a remove. */
  predicate EndsRemoved(ops: seq<Op>, n: string) {
    ops != [] && var k := |ops| - 1; Removes(ops[k], n) || (!Touches(ops[k], n) && EndsRemoved(ops[..k], n))
  }

  /** What is kept on n under its standing create: the create is on top of the stack. */
  ghost function Settled(ops: seq<Op>, n: string): seq<Op> {
    var kept := On(Collapsed(ops), n);
    if SeenCreate(ops, n).Some? && kept != [] then kept[..|kept| - 1] else kept
  }

  /** One step of the stack, with the standing create, if any, split off the top. */
  lemma StackStep(before: seq<Op>, top: Option<Op>, op: Op, renamed: bool)
    requires top.Some? ==> before != [] && before[|before| - 1] == top.value
    ensures var x := if top.Some? then before[..|before| - 1] else before;
            var pushed := (if top.Some? && renamed then x else before) + [op];
            pushed[..|pushed| - 1] == x + if top.Some? && !renamed then [top.value] else []
  {
  }

  lemma SettledStep(ops: seq<Op>, n: string)
    requires ops != []
    ensures var k := |ops| - 1;
            var p := ops[..k];
            var seen := SeenCreate(p, n);
            && (seen.Some? ==> seen.value < k)
            && Settled(ops, n) == Settled(p, n)
                                  + if Creates(ops[k], n) && seen.Some? && !ops[k].renamed then [ops[seen.value]]
                                    else if Removes(ops[k], n) && seen.None? then [ops[k]]
                                    else []
  {
    CollapsedStep(ops, n);
    var k := |ops| - 1;
    var before := On(Collapsed(ops[..k]), n);
    var seen := SeenCreate(ops[..k], n);
    if Creates(ops[k], n) {
      StackStep(before, if seen.Some? then Some(ops[seen.value]) else None, ops[k], ops[k].renamed);
    } else {
      var x := Settled(ops[..k], n);
      assert x + [] == x;
    }
  }

  lemma {:induction false} LeftoverMeans(ops: seq<Op>, n: string, d: Directory)
    ensures Leftover(ops, n, n in d) == Outcome(Settled(ops, n), Lookup(d, n)).Some?
  {
    if ops != [] {
      var p := ops[..|ops| - 1];
      LeftoverMeans(p, n, d);
      SettledStep(ops, n);
      SeenCreateIsLast(p, n);
    }
  }

  /** The full replay of n: the standing create, nothing after a remove, otherwise what was there. */
  lemma {:induction false} FullReplayAt(ops: seq<Op>, n: string, d: Directory)
    ensures var seen := SeenCreate(ops, n);
            && (seen.Some? ==> seen.value < |ops|)
            && Lookup(Replay(ops, d), n) ==
               if seen.Some? then Some(Made(ops[seen.value]))
               else if EndsRemoved(ops, n) then None
               else Lookup(d, n)
    ensures EndsRemoved(ops, n) ==> SeenCreate(ops, n).None?
    ensures SeenCreate(ops, n).None? && !EndsRemoved(ops, n) ==> On(Collapsed(ops), n) == []
  {
    if ops != [] {
      FullReplayAt(ops[..|ops| - 1], n, d);
      CollapsedStep(ops, n);
    }
  }

  lemma StandingIsOnTop(ops: seq<Op>, n: string)
    ensures var kept := On(Collapsed(ops), n);
            var seen := SeenCreate(ops, n);
            seen.Some? ==>
              && seen.value < |ops| && ops[seen.value].CreateOp?
              && kept != [] && kept[|kept| - 1] == ops[seen.value]
  {
    SeenCreateIsLast(ops, n);
    if SeenCreate(ops, n).Some? {
      StandingIsKept(ops, n);
      DropStanding(ops, Cancelled(ops), n);
    }
  }

  lemma CollapseAt(ops: seq<Op>, n: string, d: Directory)
    ensures Lookup(Replay(Collapsed(ops), d), n) == Lookup(Replay(ops, d), n) <==>
            !(EndsRemoved(ops, n) && Leftover(ops, n, n in d))
  {
    ReplayAt(Collapsed(ops), n, d);
    FullReplayAt(ops, n, d);
    LeftoverMeans(ops, n, d);
    StandingIsOnTop(ops, n);
  }

  /** Collapsing a chain leaves its effect on d unchanged exactly when no name that ends up removed was ever created
      over an entry that collapse does not know about: one already in d, or one made by an earlier plain create. */
  lemma CollapsePreservesReplay(ops: seq<Op>, d: Directory)
    ensures Replay(Collapsed(ops), d) == Replay(ops, d) <==>
            forall n :: EndsRemoved(ops, n) ==> !Leftover(ops, n, n in d)
  {
    var a, b := Replay(Collapsed(ops), d), Replay(ops, d);
    forall n: string
      ensures Lookup(a, n) == Lookup(b, n) <==> !(EndsRemoved(ops, n) && Leftover(ops, n, n in d))
    {
      CollapseAt(ops, n, d);
    }
    if forall n :: EndsRemoved(ops, n) ==> !Leftover(ops, n, n in d) {
      assert forall n: string :: Lookup(a, n) == Lookup(b, n);
      assert forall n: string :: n in a <==> n in b by {
        forall n: string
          ensures n in a <==> n in b
        {
          assert Lookup(a, n) == Lookup(b, n);
        }
      }
      forall n | n in a
        ensures a[n] == b[n]
      {
        assert Lookup(a, n) == Lookup(b, n);
      }
    }
  }

  /** A list in which no entry from before is overwritten: a plain create needs a free name, a renamed create a name
      that is free or was created in this chain, and a remove an existing name. */
  predicate WellFormed(ops: seq<Op>, d: Directory) {
    ops == [] ||
    var k := |ops| - 1;
    var p := ops[..k];
    && WellFormed(p, d)
    && match ops[k]
       case CreateOp(_, n, _, _, renamed) => n !in Replay(p, d) || (renamed && SeenCreate(p, n).Some?)
       case RmOp(_, n, _) => n in Replay(p, d)
       case _ => true
  }

  lemma {:induction false} WellFormedLeftover(ops: seq<Op>, d: Directory, n: string)
    requires WellFormed(ops, d)
    ensures Leftover(ops, n, n in d) <==> n in Replay(ops, d) && SeenCreate(ops, n).None?
  {
    if ops != [] {
      var p := ops[..|ops| - 1];
      WellFormedLeftover(p, d, n);
      FullReplayAt(p, n, d);
      SeenCreateIsLast(p, n);
    }
  }

  /** On every such list the collapsed chain has the same effect. */
  lemma CollapseKeepsMeaning(ops: seq<Op>, d: Directory)
    requires WellFormed(ops, d)
    ensures Replay(Collapsed(ops), d) == Replay(ops, d)
  {
    forall n | EndsRemoved(ops, n)
      ensures !Leftover(ops, n, n in d)
    {
      WellFormedLeftover(ops, d, n);
      FullReplayAt(ops, n, d);
      assert Lookup(Replay(ops, d), n) == None;
    }
    CollapsePreservesReplay(ops, d);
  }

  /** A list the file system lets through: a plain create needs a free name and a remove an existing one, but a
      rename may go over an entry without a remove of it. */
  predicate Possible(ops: seq<Op>, d: Directory) {
    ops == [] ||
    var k := |ops| - 1;
    var p := ops[..k];
    && Possible(p, d)
    && match ops[k]
       case CreateOp(_, n, _, _, renamed) => renamed || n !in Replay(p, d)
       case RmOp(_, n, _) => n in Replay(p, d)
       case _ => true
  }

  /** A rename went over an entry of that name that was there before the chain. */
  predicate Hides(ops: seq<Op>, d: Directory, n: string) {
    ops != [] &&
    var k := |ops| - 1;
    var p := ops[..k];
    Hides(p, d, n) || (Creates(ops[k], n) && ops[k].renamed && n in Replay(p, d) && SeenCreate(p, n).None?)
  }

  lemma {:induction false} PossibleLeftover(ops: seq<Op>, d: Directory, n: string)
    requires Possible(ops, d)
    ensures Leftover(ops, n, n in d) <==> (n in Replay(ops, d) && SeenCreate(ops, n).None?) || Hides(ops, d, n)
    ensures Hides(ops, d, n) && n in Replay(ops, d) ==> SeenCreate(ops, n).Some?
  {
    if ops != [] {
      var p := ops[..|ops| - 1];
      PossibleLeftover(p, d, n);
      FullReplayAt(p, n, d);
      SeenCreateIsLast(p, n);
    }
  }

  /** On every list the file system lets through, collapsing changes the effect exactly if a name that ends up
      removed was renamed over while it was still the entry from before the chain. */
  lemma CollapseHides(ops: seq<Op>, d: Directory)
    requires Possible(ops, d)
    ensures Replay(Collapsed(ops), d) == Replay(ops, d) <==> forall n :: EndsRemoved(ops, n) ==> !Hides(ops, d, n)
  {
    forall n | EndsRemoved(ops, n)
      ensures Leftover(ops, n, n in d) <==> Hides(ops, d, n)
    {
      PossibleLeftover(ops, d, n);
      FullReplayAt(ops, n, d);
      assert Lookup(Replay(ops, d), n) == None;
    }
    CollapsePreservesReplay(ops, d);
  }

  /** Two plain creates of one name followed by its removal: collapse cancels only the second create, so the name
      survives although the chain removed it. */
  lemma CollapseCanResurrect(c: Common, u: BlockUpdate)
    ensures var create := CreateOp(c, "a", u, File, false);
            var ops := [create, create, RmOp(c, "a", u)];
            Collapsed(ops) == [create] && "a" !in Replay(ops, map[]) && "a" in Replay(Collapsed(ops), map[])
  {
    var create := CreateOp(c, "a", u, File, false);
    var rm := RmOp(c, "a", u);
    var ops := [create, create, rm];
    assert ops[..2] == [create, create] && ops[..2][..1] == [create] && ops[..1] == [create];
    assert SeenCreate([create, create], "a") == Some(1);
    assert Cancelled([create]) == {} by {
      assert [create][..0] == [];
    }
    assert Cancelled([create, create]) == {} by {
      assert [create, create][..1] == [create];
    }
    assert Cancelled(ops) == {1, 2};
    assert Without(ops[..1], {1, 2}) == [create] by {
      assert ops[..1][..0] == [];
    }
    assert Without(ops[..2], {1, 2}) == [create];
    assert Without(ops, {1, 2}) == [create];
    assert Replay(Collapsed(ops), map[])["a"] == Made(create);
  }

  // ---------- What is left of each name ----------

  /** Nothing, one remove, one create, or one remove followed by one create. */
  ghost predicate AtMostRmThenCreate(s: seq<Op>) {
    || s == []
    || (|s| == 1 && (s[0].RmOp? || s[0].CreateOp?))
    || (|s| == 2 && s[0].RmOp? && s[1].CreateOp?)
  }

  /** What is kept on a name: it ends with a create if one is standing, and is nothing if the name is still what it
      was. */
  ghost predicate KeptShape(kept: seq<Op>, standing: bool, present: bool) {
    && AtMostRmThenCreate(kept)
    && (standing <==> kept != [] && kept[|kept| - 1].CreateOp?)
    && (!standing && present ==> kept == [])
  }

  lemma ShapeStep(before: seq<Op>, after: seq<Op>, standing: bool, present: bool, op: Op)
    requires KeptShape(before, standing, present) && (standing ==> present)
    requires if op.CreateOp? then op.renamed || !present else op.RmOp? && present
    requires after == if op.CreateOp? then (if standing && op.renamed then before[..|before| - 1] else before) + [op]
                      else if standing then before[..|before| - 1] else before + [op]
    ensures KeptShape(after, op.CreateOp?, op.CreateOp?)
  {
  }

  /** After collapsing, every name keeps at most one remove followed by at most one create. */
  lemma {:induction false} CollapsedShape(ops: seq<Op>, d: Directory, n: string)
    requires Possible(ops, d)
    ensures KeptShape(On(Collapsed(ops), n), SeenCreate(ops, n).Some?, n in Replay(ops, d))
  {
    if ops != [] {
      var k := |ops| - 1;
      var p := ops[..k];
      CollapsedShape(p, d, n);
      CollapsedStep(ops, n);
      if Touches(ops[k], n) {
        FullReplayAt(p, n, d);
        ShapeStep(On(Collapsed(p), n), On(Collapsed(ops), n), SeenCreate(p, n).Some?, n in Replay(p, d), ops[k]);
      }
    }
  }

  lemma {:induction false} SeenIsOn(ops: seq<Op>, n: string)
    ensures SeenCreate(ops, n).Some? ==> var s := On(ops, n); s != [] && s[|s| - 1].CreateOp?
  {
    if ops != [] {
      SeenIsOn(ops[..|ops| - 1], n);
    }
  }

  lemma {:induction false} NothingLeftToCancel(ops: seq<Op>)
    requires forall n: string :: AtMostRmThenCreate(On(ops, n))
    ensures Cancelled(ops) == {}
  {
    if ops != [] {
      var k := |ops| - 1;
      var p := ops[..k];
      forall n: string
        ensures AtMostRmThenCreate(On(p, n))
        ensures Touches(ops[k], n) ==> SeenCreate(p, n).None?
      {
        assert AtMostRmThenCreate(On(ops, n));
        SeenIsOn(p, n);
      }
      NothingLeftToCancel(p);
    }
  }

  /** Collapsing twice is the same as collapsing once. */
  lemma CollapseIdempotent(ops: seq<Op>, d: Directory)
    requires Possible(ops, d)
    ensures Collapsed(Collapsed(ops)) == Collapsed(ops)
  {
    forall n: string
      ensures AtMostRmThenCreate(On(Collapsed(ops), n))
    {
      CollapsedShape(ops, d, n);
    }
    NothingLeftToCancel(Collapsed(ops));
    WithoutNothing(Collapsed(ops));
  }
}

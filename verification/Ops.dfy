/** Block pointers and the file-system operations recorded in a folder's metadata (libkbfs/ops.go). */
module Ops {
  /** A reference to a block.  Only its identity matters here; zero means "unset". */
  type BlockPointer = int

  const ZERO_PTR: BlockPointer := 0

  predicate IsInitialized(p: BlockPointer) {
    p != ZERO_PTR
  }

  datatype BlockUpdate = BlockUpdate(unref: BlockPointer, ref: BlockPointer)

  const NO_UPDATE := BlockUpdate(ZERO_PTR, ZERO_PTR)

  datatype EntryType = File | Exec | Dir | Sym

  datatype AttrChange = ExAttr | MtimeAttr | SizeAttr

  /** The part every operation carries: blocks it references, unreferences, and replaces. */
  datatype Common = Common(refs: seq<BlockPointer>, unrefs: seq<BlockPointer>, updates: seq<BlockUpdate>)

  const NOTHING := Common([], [], [])

  datatype Op =
    | CreateOp(common: Common, newName: string, dir: BlockUpdate, entryType: EntryType, renamed: bool)
    | RmOp(common: Common, oldName: string, dir: BlockUpdate)
    | RenameOp(common: Common, oldName: string, oldDir: BlockUpdate, newName: string, newDir: BlockUpdate,
               node: BlockPointer, renamedType: EntryType)
    | SyncOp(common: Common, file: BlockUpdate)
    | SetAttrOp(common: Common, name: string, dir: BlockUpdate, attr: AttrChange, target: BlockPointer)
    | ResolutionOp(common: Common)
    | RekeyOp(common: Common)
    | GCOp(common: Common, latestRev: nat)

  /** Every pointer replacement an operation makes, the operation's own directory or file last. */
  function AllUpdates(op: Op): seq<BlockUpdate> {
    match op
    case CreateOp(c, _, dir, _, _) => c.updates + [dir]
    case RmOp(c, _, dir) => c.updates + [dir]
    case RenameOp(c, _, oldDir, _, newDir, _, _) =>
      if newDir != NO_UPDATE then c.updates + [newDir, oldDir] else c.updates + [oldDir]
    case SyncOp(c, file) => c.updates + [file]
    case SetAttrOp(c, _, dir, _, _) => c.updates + [dir]
    case ResolutionOp(c) => c.updates
    case RekeyOp(c) => c.updates
    case GCOp(c, _) => c.updates
  }

  /** The update of the operation's own directory or file; a rename has one for each directory. */
  predicate OwnUpdate(op: Op, u: BlockUpdate) {
    || ((op.CreateOp? || op.RmOp? || op.SetAttrOp?) && u == op.dir)
    || (op.SyncOp? && u == op.file)
    || (op.RenameOp? && (u == op.oldDir || (u == op.newDir && u != NO_UPDATE)))
  }

  /** The replacements are the ones listed, in their order, and then the operation's own. */
  lemma UpdatesAre(op: Op, u: BlockUpdate)
    ensures op.common.updates <= AllUpdates(op)
    ensures u in AllUpdates(op)[|op.common.updates|..] <==> OwnUpdate(op, u)
  {
  }
}

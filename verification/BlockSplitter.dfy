/** Sizing and filling of file blocks (libkbfs/bsplitter_simple.go). */
module BlockSplitter {
  import opened Arithmetic
  import opened Outcomes
  import opened BlockPadding

  // ---------- The maximum size of a block's contents ----------

  /** A desired size that is a power of two is one too many, because padding rounds up beyond it. */
  function Target(desired: nat): nat
    requires desired > 0
  {
    if And(desired, desired - 1) == 0 then desired - 1 else desired
  }

  /** Up to that many more attempts from a given size; encodedLen gives the encoded length of a block for the length of
      its contents.  A size for which there is no data fails too. */
  function Converge(encodedLen: nat -> nat, target: nat, size: int, attempts: nat): Result<nat>
    decreases attempts
  {
    if attempts == 0 || !(0 <= size <= target) || encodedLen(size) >= 2 * target then Err
    else if encodedLen(size) == target then Ok(size)
    else Converge(encodedLen, target, size + target - encodedLen(size), attempts - 1)
  }

  const ATTEMPTS: nat := 10

  /** A size that is found is one whose blocks are encoded in exactly the target size. */
  lemma {:induction false} ConvergeHits(encodedLen: nat -> nat, target: nat, size: int, attempts: nat)
    ensures var r := Converge(encodedLen, target, size, attempts);
            r.Ok? ==> r.value <= target && encodedLen(r.value) == target
    decreases attempts
  {
    if attempts > 0 && 0 <= size <= target && encodedLen(size) != target && encodedLen(size) < 2 * target {
      ConvergeHits(encodedLen, target, size + target - encodedLen(size), attempts - 1);
    }
  }

  /** With an overhead that does not depend on the length, the second attempt hits. */
  lemma ConstantOverheadConverges(encodedLen: nat -> nat, target: nat, overhead: nat)
    requires overhead < target && forall n: nat :: encodedLen(n) == n + overhead
    ensures Converge(encodedLen, target, target, ATTEMPTS) == Ok(target - overhead)
  {
  }

  /** For a desired power of two, a full block is padded to exactly that size and the length prefix. */
  lemma FullBlockFits(encodedLen: nat -> nat, desired: nat, block: seq<byte>, random: nat -> byte)
    requires IsPow2(desired) && MIN_BLOCK_SIZE <= desired <= WORD
    requires var r := Converge(encodedLen, Target(desired), Target(desired), ATTEMPTS);
             r.Ok? && |block| == encodedLen(r.value)
    ensures |Padded(block, random)| == desired + 4
  {
    PowerTest(desired);
    ConvergeHits(encodedLen, Target(desired), Target(desired), ATTEMPTS);
    PaddedLength(block, random);
    RoundUpIsLeast(desired - 1, desired);
  }

  method FindMaxSize(encodedLen: nat -> nat, desired: nat) returns (r: Result<nat>)
    requires desired > 0
    ensures r == Converge(encodedLen, Target(desired), Target(desired), ATTEMPTS)
  {
    var target := desired;
    if And(desired, desired - 1) == 0 {
      target := target - 1;
    }
    r := Search(encodedLen, target, ATTEMPTS);
  }

  method Search(encodedLen: nat -> nat, target: nat, attempts: nat) returns (r: Result<nat>)
    ensures r == Converge(encodedLen, target, target, attempts)
  {
    var maxSize: int := target;
    var i := 0;
    while i < attempts
      invariant 0 <= i <= attempts
      invariant Converge(encodedLen, target, target, attempts) == Converge(encodedLen, target, maxSize, attempts - i)
    {
      if !(0 <= maxSize <= target) {
        return Err;
      }
      var len: int := encodedLen(maxSize);
      if len >= 2 * target {
        return Err;
      }
      if len == target {
        return Ok(maxSize);
      }
      maxSize := maxSize + (target - len);
      i := i + 1;
    }
    return Err;
  }

  // ---------- Copying data into a block ----------

  function Zeros(n: nat): (s: seq<byte>)
    ensures |s| == n
  {
    seq(n, _ => 0)
  }

  class FileBlock {
    var contents: seq<byte>

    /** Copy as much of the data to the offset as fits, filling a gap with zeros.  What is copied is at the offset, the
        rest is as it was, and data is left over only when the block is full. */
    method CopyUntilSplit(maxSize: nat, data: seq<byte>, off: nat) returns (copied: nat)
      modifies this
      ensures copied == if |old(contents)| >= off + |data| then |data|
                        else if |old(contents)| > maxSize && off + |data| > maxSize then 0
                        else Max(0, Min(|data|, maxSize - off))
      ensures |contents| == if |old(contents)| >= off + |data| then |old(contents)|
                            else Max(|old(contents)|, Min(off + |data|, maxSize))
      ensures forall i :: 0 <= i < |contents| ==>
                contents[i] == if off <= i < off + copied then data[i - off]
                               else if i < |old(contents)| then old(contents)[i]
                               else 0
      ensures copied < |data| ==> |contents| >= maxSize
    {
      var n, currLen := |data|, |contents|;
      var toCopy: int := n;
      if currLen < off + n {
        var moreNeeded: int := n + off - currLen;
        if moreNeeded + currLen > maxSize {
          moreNeeded := maxSize - currLen;
          if moreNeeded < 0 {
            return 0;
          }
          toCopy := maxSize - off;
        }
        if moreNeeded > 0 {
          contents := contents + Zeros(moreNeeded);
        }
      }
      if off > |contents| {
        return 0;
      }
      contents := contents[..off] + data[..toCopy] + contents[off + toCopy..];
      copied := toCopy;
    }
  }
}

/** Padding of encoded blocks to a power of two (libkbfs/crypto_common.go).  The 32-bit arithmetic of the code is
    arithmetic on naturals below 2^32. */
module BlockPadding {
  import opened Outcomes

  const WORD: nat := 0x1_0000_0000

  function Pow2(k: nat): (p: nat)
    ensures p > 0
  {
    if k == 0 then 1 else 2 * Pow2(k - 1)
  }

  // ---------- Bits ----------

  predicate Bit(x: nat, i: nat) {
    if i == 0 then x % 2 == 1 else Bit(x / 2, i - 1)
  }

  function Or(x: nat, y: nat): nat
    decreases x + y
  {
    if x == 0 && y == 0 then 0
    else 2 * Or(x / 2, y / 2) + if x % 2 == 1 || y % 2 == 1 then 1 else 0
  }

  function And(x: nat, y: nat): nat
    decreases x + y
  {
    if x == 0 || y == 0 then 0
    else 2 * And(x / 2, y / 2) + if x % 2 == 1 && y % 2 == 1 then 1 else 0
  }

  function Shr(x: nat, w: nat): nat {
    if w == 0 then x else Shr(x / 2, w - 1)
  }

  lemma {:induction false} OrBit(x: nat, y: nat, i: nat)
    ensures Bit(Or(x, y), i) <==> Bit(x, i) || Bit(y, i)
    decreases i
  {
    assert Or(x, y) / 2 == Or(x / 2, y / 2);
    if i > 0 {
      OrBit(x / 2, y / 2, i - 1);
    }
  }

  lemma {:induction false} ShrBit(x: nat, w: nat, i: nat)
    ensures Bit(Shr(x, w), i) <==> Bit(x, i + w)
  {
    if w > 0 {
      ShrBit(x / 2, w - 1, i);
    }
  }

  /** The highest bit of a number between two powers of two. */
  lemma {:induction false} HighBit(x: nat, k: nat, i: nat)
    requires k > 0 && Pow2(k - 1) <= x < Pow2(k) && i >= k - 1
    ensures Bit(x, i) <==> i == k - 1
  {
    if k == 1 {
      if i > 0 {
        NoBits(x / 2, i - 1);
      }
    } else {
      HighBit(x / 2, k - 1, i - 1);
    }
  }

  lemma {:induction false} NoBits(x: nat, i: nat)
    requires x == 0
    ensures !Bit(x, i)
  {
    if i > 0 {
      NoBits(x / 2, i - 1);
    }
  }

  lemma {:induction false} OnlyZero(x: nat)
    requires forall i: nat :: !Bit(x, i)
    ensures x == 0
  {
    assert !Bit(x, 0);
    if x > 0 {
      forall i: nat
        ensures !Bit(x / 2, i)
      {
        assert !Bit(x, i + 1);
      }
      OnlyZero(x / 2);
    }
  }

  /** A number whose bits are exactly the lowest k. */
  lemma {:induction false} AllOnes(x: nat, k: nat)
    requires forall i: nat :: Bit(x, i) <==> i < k
    ensures x == Pow2(k) - 1
  {
    if k == 0 {
      OnlyZero(x);
    } else {
      assert Bit(x, 0);
      forall i: nat
        ensures Bit(x / 2, i) <==> i < k - 1
      {
        assert Bit(x, i + 1) <==> i + 1 < k;
      }
      AllOnes(x / 2, k - 1);
    }
  }

  // ---------- Rounding up ----------

  /** The highest w bits below k are set, and none from k on. */
  ghost predicate TopOnes(x: nat, k: nat, w: nat) {
    forall i: nat :: (k <= i + w && i < k ==> Bit(x, i)) && (k <= i ==> !Bit(x, i))
  }

  /** Shifting by w and joining doubles the run of set bits. */
  lemma Smear(x: nat, k: nat, w: nat)
    requires TopOnes(x, k, w)
    ensures TopOnes(Or(x, Shr(x, w)), k, 2 * w)
  {
    var y := Or(x, Shr(x, w));
    forall i: nat
      ensures (k <= i + 2 * w && i < k ==> Bit(y, i)) && (k <= i ==> !Bit(y, i))
    {
      OrBit(x, Shr(x, w), i);
      ShrBit(x, w, i);
      assert k <= i + w && i < k ==> Bit(x, i);
      assert k <= i + w + w && i + w < k ==> Bit(x, i + w);
      assert k <= i ==> !Bit(x, i) && !Bit(x, i + w);
    }
  }

  /** The five steps fill all bits below the highest one of a 32-bit number. */
  function Fill(n: nat): nat {
    var a := Or(n, Shr(n, 1));
    var b := Or(a, Shr(a, 2));
    var c := Or(b, Shr(b, 4));
    var d := Or(c, Shr(c, 8));
    Or(d, Shr(d, 16))
  }

  lemma FillIsOnes(n: nat, k: nat)
    requires 0 < k <= 32 && Pow2(k - 1) <= n < Pow2(k)
    ensures Fill(n) == Pow2(k) - 1
  {
    forall i: nat
      ensures (k <= i + 1 && i < k ==> Bit(n, i)) && (k <= i ==> !Bit(n, i))
    {
      if i >= k - 1 {
        HighBit(n, k, i);
      }
    }
    var a := Or(n, Shr(n, 1));
    Smear(n, k, 1);
    var b := Or(a, Shr(a, 2));
    Smear(a, k, 2);
    var c := Or(b, Shr(b, 4));
    Smear(b, k, 4);
    var d := Or(c, Shr(c, 8));
    Smear(c, k, 8);
    Smear(d, k, 16);
    assert TopOnes(Fill(n), k, 32);
    AllOnes(Fill(n), k);
  }

  lemma {:induction false} AndSelf(x: nat)
    ensures And(x, x) == x
  {
    if x > 0 {
      AndSelf(x / 2);
    }
  }

  ghost predicate IsPow2(n: nat) {
    exists k: nat :: n == Pow2(k)
  }

  lemma {:induction false} HalfPow2(n: nat)
    requires n > 0 && n % 2 == 0
    ensures IsPow2(n) <==> IsPow2(n / 2)
  {
    if IsPow2(n) {
      var k: nat :| n == Pow2(k);
      assert n / 2 == Pow2(k - 1);
    }
    if IsPow2(n / 2) {
      var k: nat :| n / 2 == Pow2(k);
      assert n == Pow2(k + 1);
    }
  }

  /** The test for a power of two. */
  lemma {:induction false} PowerTest(n: nat)
    requires n > 0
    ensures And(n, n - 1) == 0 <==> IsPow2(n)
  {
    if n == 1 {
      assert n == Pow2(0);
    } else if n % 2 == 1 {
      assert n / 2 == (n - 1) / 2;
      AndSelf(n / 2);
      OddIsNoPower(n);
    } else {
      assert (n - 1) / 2 == n / 2 - 1;
      PowerTest(n / 2);
      HalfPow2(n);
    }
  }

  lemma OddIsNoPower(n: nat)
    requires n > 1 && n % 2 == 1
    ensures !IsPow2(n)
  {
  }

  const MIN_BLOCK_SIZE: nat := 256

  /** The least power of two, from p on, that exceeds n. */
  function RoundUpFrom(n: nat, p: nat): (r: nat)
    requires p > 0
    ensures r > n && r >= p
    decreases n + 1 - p
  {
    if n < p then p else RoundUpFrom(n, 2 * p)
  }

  function RoundUp(n: nat): nat {
    RoundUpFrom(n, MIN_BLOCK_SIZE)
  }

  lemma {:induction false} RoundUpFromIs(n: nat, j: nat)
    returns (k: nat)
    ensures k >= j && RoundUpFrom(n, Pow2(j)) == Pow2(k) && n < Pow2(k)
    ensures k > j ==> Pow2(k - 1) <= n
    decreases n + 1 - Pow2(j)
  {
    if n < Pow2(j) {
      k := j;
    } else {
      k := RoundUpFromIs(n, j + 1);
    }
  }

  lemma {:induction false} PowersGrow(j: nat, k: nat)
    requires j < k
    ensures Pow2(j) < Pow2(k)
  {
    if j < k - 1 {
      PowersGrow(j, k - 1);
    }
  }

  /** It is the least power of two that exceeds the length and is at least 256. */
  lemma RoundUpIsLeast(n: nat, p: nat)
    requires IsPow2(p) && p > n && p >= MIN_BLOCK_SIZE
    ensures IsPow2(RoundUp(n)) && n < RoundUp(n) <= p && RoundUp(n) >= MIN_BLOCK_SIZE
  {
    assert Pow2(8) == MIN_BLOCK_SIZE;
    var k := RoundUpFromIs(n, 8);
    var m: nat :| p == Pow2(m);
    if k < m {
      PowersGrow(k, m);
    } else if m < k - 1 {
      PowersGrow(m, k - 1);
    }
    if k == 8 && m < k {
      PowersGrow(m, k);
    }
  }

  lemma WordIs()
    ensures Pow2(32) == WORD
  {
    assert Pow2(8) == 0x100;
    assert Pow2(16) == 0x1_0000;
    assert Pow2(24) == 0x100_0000;
  }

  lemma PowerBetween(n: nat, k: nat)
    requires k > 0 && Pow2(k - 1) <= n < Pow2(k)
    ensures IsPow2(n) <==> n == Pow2(k - 1)
  {
    if IsPow2(n) {
      var j: nat :| n == Pow2(j);
      if j < k - 1 {
        PowersGrow(j, k - 1);
      } else if k < j {
        PowersGrow(k, j);
      }
    }
  }

  lemma FewBits(n: nat, k: nat)
    requires k > 0 && Pow2(k - 1) <= n < WORD
    ensures k <= 32 && Pow2(k) <= WORD
  {
    WordIs();
    if k - 1 > 32 {
      PowersGrow(32, k - 1);
    }
    if k < 32 {
      PowersGrow(k, 32);
    }
  }

  /** What the code computes: the bits of n, or of n - 1 unless n is a power of two, are filled up, and one is
      added. */
  lemma FillRoundsUp(n: nat, m: nat)
    requires MIN_BLOCK_SIZE <= n < WORD && m == if And(n, n - 1) == 0 then n else n - 1
    ensures Fill(m) + 1 == RoundUp(n) && RoundUp(n) <= WORD
  {
    var j := EightBits();
    var k := RoundUpFromIs(n, j);
    FewBits(n, k);
    PowerTest(n);
    PowerBetween(n, k);
    FillIsOnes(m, k);
  }

  lemma EightBits() returns (j: nat)
    ensures Pow2(j) == MIN_BLOCK_SIZE
  {
    j := 8;
    assert Pow2(8) == MIN_BLOCK_SIZE;
  }

  method NextPowerOfTwo(n: nat) returns (r: nat)
    requires n < WORD
    ensures r == RoundUp(n) % WORD
  {
    if n < MIN_BLOCK_SIZE {
      return MIN_BLOCK_SIZE;
    }
    var m := n;
    if And(n, n - 1) == 0 {
      m := m + 1;
    }
    m := m - 1;
    FillRoundsUp(n, m);
    m := Or(m, Shr(m, 1));
    m := Or(m, Shr(m, 2));
    m := Or(m, Shr(m, 4));
    m := Or(m, Shr(m, 8));
    m := Or(m, Shr(m, 16));
    r := (m + 1) % WORD;
  }

  // ---------- Padding ----------

  type byte = x: int | 0 <= x < 256

  function LittleEndian(n: nat): seq<byte> {
    [n % 256, n / 0x100 % 256, n / 0x1_0000 % 256, n / 0x100_0000 % 256]
  }

  function FromLittleEndian(s: seq<byte>): nat
    requires |s| == 4
  {
    (s[0] as int) + 0x100 * (s[1] as int) + 0x1_0000 * (s[2] as int) + 0x100_0000 * (s[3] as int)
  }

  lemma LittleEndianRoundTrip(n: nat)
    requires n < WORD
    ensures FromLittleEndian(LittleEndian(n)) == n
  {
    var a, b := n / 0x100, n / 0x1_0000;
    assert b == a / 0x100;
    var c := n / 0x100_0000;
    assert c == b / 0x100 && c < 256;
  }

  /** The bytes drawn from the random source. */
  function Drawn(random: nat -> byte, n: nat): (s: seq<byte>)
    ensures |s| == n
  {
    seq(n, (i: nat) => random(i))
  }

  function Padded(block: seq<byte>, random: nat -> byte): seq<byte> {
    var blockLen := |block| % WORD;
    LittleEndian(blockLen) + block + Drawn(random, RoundUp(blockLen) - blockLen)
  }

  function Depadded(p: seq<byte>): Result<seq<byte>> {
    if |p| < 4 then Err
    else
      var blockLen := FromLittleEndian(p[..4]);
      if |p| < (blockLen + 4) % WORD then Err
      else Ok(if 4 + blockLen <= |p| then p[4..4 + blockLen] else p[4..])
  }

  /** Removing the padding gives the block back, whatever the padding, exactly if the length fits its prefix. */
  lemma DepadUndoesPad(block: seq<byte>, random: nat -> byte)
    ensures Depadded(Padded(block, random)) == Ok(block) <==> |block| < WORD
  {
    var blockLen := |block| % WORD;
    var p := Padded(block, random);
    LittleEndianRoundTrip(blockLen);
    assert p[..4] == LittleEndian(blockLen);
    assert blockLen <= |block| && (blockLen == |block| <==> |block| < WORD);
    assert p[4..4 + |block|] == block;
    assert |p| >= 4 + blockLen >= (blockLen + 4) % WORD;
    assert |p[4..4 + blockLen]| == blockLen;
  }

  /** The padded length says no more about a block than the power of two above its length. */
  lemma PaddedLength(block: seq<byte>, random: nat -> byte)
    requires |block| < WORD
    ensures |Padded(block, random)| == 4 + RoundUp(|block|)
  {
  }

  /** The block comes right after its length, and all that follows it was drawn at random. */
  lemma PaddingIsDrawn(block: seq<byte>, random: nat -> byte, i: nat)
    requires 4 + |block| + i < |Padded(block, random)|
    ensures Padded(block, random)[4..4 + |block|] == block
    ensures Padded(block, random)[4 + |block| + i] == random(i)
  {
  }

  /** What is made of any bytes.  They are refused exactly if there is no length or they are too short for it, except
      that the check overflows for the last four lengths: then all that is there is taken for the block. */
  lemma DepadExact(p: seq<byte>)
    ensures Depadded(p).Err? <==> |p| < 4 || (|p| < 4 + FromLittleEndian(p[..4]) < WORD)
    ensures Depadded(p).Ok? ==>
              var n := FromLittleEndian(p[..4]); Depadded(p).value == if |p| >= 4 + n then p[4..4 + n] else p[4..]
  {
    if |p| >= 4 {
      assert FromLittleEndian(p[..4]) < WORD;
    }
  }

  /** An overflow: eight bytes whose first four announce the greatest length of all. */
  lemma OverflowingLength(p: seq<byte>)
    requires |p| == 8 && forall i :: 0 <= i < 4 ==> p[i] == 255
    ensures 4 + FromLittleEndian(p[..4]) > |p| && Depadded(p) == Ok(p[4..])
  {
    DepadExact(p);
  }

  method PadBlock(block: seq<byte>, random: nat -> byte) returns (p: seq<byte>)
    ensures p == Padded(block, random)
  {
    var blockLen := |block| % WORD;
    var overallLen := NextPowerOfTwo(blockLen);
    var padLen := (overallLen - blockLen) % WORD;
    PadLengthFits(blockLen);
    p := LittleEndian(blockLen);
    p := p + block;
    p := p + Drawn(random, padLen);
  }

  lemma PadLengthFits(n: nat)
    requires n < WORD
    ensures (RoundUp(n) % WORD - n) % WORD == RoundUp(n) - n
  {
    WordIs();
    assert IsPow2(WORD);
    RoundUpIsLeast(n, WORD);
    if RoundUp(n) == WORD {
      assert n >= MIN_BLOCK_SIZE;
    }
  }

  method DepadBlock(p: seq<byte>) returns (r: Result<seq<byte>>)
    ensures r == Depadded(p)
  {
    if |p| < 4 {
      return Err;
    }
    var blockLen := FromLittleEndian(p[..4]);
    var blockEndPos := (blockLen + 4) % WORD;
    if |p| < blockEndPos {
      return Err;
    }
    var rest := p[4..];
    assert 4 + blockLen <= |p| ==> p[4..4 + blockLen] == rest[..blockLen];
    if blockLen <= |rest| {
      return Ok(rest[..blockLen]);
    }
    return Ok(rest);
  }
}

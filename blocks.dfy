/**
 * The block planner of read_and_print_file, as pure arithmetic: how a file
 * length is cut into BLOCK_SZ-byte blocks, one iovec entry per block.
 */
module Blocks {

  /** The fixed block size (BLOCK_SZ): unit of buffer allocation and of I/O. */
  const BLOCK_SZ: nat := 4096

  /** Largest value of a C `int`; the block count is computed through an `int`. */
  const INT_MAX: nat := 0x7fff_ffff

  /**
   * The number of blocks (and iovec entries) read_and_print_file allocates for
   * a file of fileSz bytes: the whole blocks, plus one for a partial tail.
   * It is the ceiling of fileSz / BLOCK_SZ, and 0 exactly for an empty file.
   */
  function BlockCount(fileSz: nat): (n: nat)
    ensures fileSz <= n * BLOCK_SZ
    ensures n > 0 ==> (n - 1) * BLOCK_SZ < fileSz
    ensures n == 0 <==> fileSz == 0
  {
    fileSz / BLOCK_SZ + (if fileSz % BLOCK_SZ != 0 then 1 else 0)
  }

  /**
   * The length in use of block k of a fileSz-byte file: what is left of the
   * file at that block's start, capped at one block.
   */
  function BlockLen(fileSz: nat, k: nat): (len: nat)
    requires k < BlockCount(fileSz)
    ensures 1 <= len <= BLOCK_SZ
    ensures k + 1 < BlockCount(fileSz) ==> len == BLOCK_SZ
    ensures k + 1 == BlockCount(fileSz) ==> len == fileSz - (BlockCount(fileSz) - 1) * BLOCK_SZ
  {
    if fileSz - k * BLOCK_SZ > BLOCK_SZ then BLOCK_SZ else fileSz - k * BLOCK_SZ
  }

  /**
   * One turn of the planning loop at block k: bytes remain, and what is left
   * after taking BlockLen(fileSz, k) of them is the start of block k + 1, or
   * nothing after the last block.
   */
  lemma PlanningStep(fileSz: nat, k: nat)
    requires k < BlockCount(fileSz)
    ensures fileSz - k * BLOCK_SZ > 0
    ensures k + 1 < BlockCount(fileSz) ==> fileSz - k * BLOCK_SZ - BlockLen(fileSz, k) == fileSz - (k + 1) * BLOCK_SZ
    ensures k + 1 == BlockCount(fileSz) ==> fileSz - k * BLOCK_SZ - BlockLen(fileSz, k) == 0
  {
  }

  /**
   * The iov_len values the planning loop produces, in block order: it takes
   * min(remaining, BLOCK_SZ) bytes at a time until nothing remains.
   */
  function Plan(remaining: nat): (lens: seq<nat>)
    decreases remaining
  {
    if remaining == 0 then []
    else
      var take := if remaining > BLOCK_SZ then BLOCK_SZ else remaining;
      [take] + Plan(remaining - take)
  }

  /** The total of a sequence of lengths. */
  function Sum(lens: seq<nat>): (total: nat)
  {
    if lens == [] then 0 else lens[0] + Sum(lens[1..])
  }

  /**
   * The file offset at which block k starts: the total length of the blocks
   * before it. Block k, when there is one, ends within the total.
   */
  function Offset(lens: seq<nat>, k: nat): (off: nat)
    requires k <= |lens|
    ensures off <= Sum(lens)
    ensures k < |lens| ==> off + lens[k] <= Sum(lens)
  {
    PrefixSumBound(lens, k);
    Sum(lens[..k])
  }

  lemma PrefixSumBound(lens: seq<nat>, k: nat)
    requires k <= |lens|
    ensures Sum(lens[..k]) <= Sum(lens)
    ensures k < |lens| ==> Sum(lens[..k]) + lens[k] <= Sum(lens)
  {
    assert lens == lens[..k] + lens[k..];
    SumAppend(lens[..k], lens[k..]);
    assert k < |lens| ==> lens[k..][0] == lens[k];
  }

  lemma {:induction false} SumAppend(a: seq<nat>, b: seq<nat>)
    ensures Sum(a + b) == Sum(a) + Sum(b)
    decreases |a|
  {
    if a == [] {
      assert a + b == b;
    } else {
      assert (a + b)[1..] == a[1..] + b;
      SumAppend(a[1..], b);
    }
  }

  /** Block k + 1 starts where block k ends. */
  lemma OffsetStep(lens: seq<nat>, k: nat)
    requires k < |lens|
    ensures Offset(lens, k + 1) == Offset(lens, k) + lens[k]
  {
    assert lens[..k + 1] == lens[..k] + [lens[k]];
    SumAppend(lens[..k], [lens[k]]);
  }

  /**
   * The loop's plan and the closed form agree: there are BlockCount(fileSz)
   * entries and entry k is BlockLen(fileSz, k), so every entry is in
   * 1..BLOCK_SZ, all but the last are full and the last holds the tail.
   */
  lemma {:induction false} PlanMatchesBlocks(fileSz: nat)
    ensures |Plan(fileSz)| == BlockCount(fileSz)
    ensures forall k :: 0 <= k < |Plan(fileSz)| ==> Plan(fileSz)[k] == BlockLen(fileSz, k)
    decreases fileSz
  {
    if fileSz > BLOCK_SZ {
      var rest := fileSz - BLOCK_SZ;
      PlanMatchesBlocks(rest);
      assert BlockCount(fileSz) == BlockCount(rest) + 1;
      forall k | 0 <= k < |Plan(fileSz)|
        ensures Plan(fileSz)[k] == BlockLen(fileSz, k)
      {
        if k > 0 {
          assert Plan(fileSz)[k] == Plan(rest)[k - 1];
          assert BlockLen(fileSz, k) == BlockLen(rest, k - 1);
        }
      }
    } else if fileSz > 0 {
      assert Plan(fileSz) == [fileSz] + Plan(0);
    }
  }

  /** The planned lengths add up to the file size: the plan covers the file exactly. */
  lemma {:induction false} PlanSum(fileSz: nat)
    ensures Sum(Plan(fileSz)) == fileSz
    decreases fileSz
  {
    if fileSz > 0 {
      var take := if fileSz > BLOCK_SZ then BLOCK_SZ else fileSz;
      assert Plan(fileSz)[1..] == Plan(fileSz - take);
      PlanSum(fileSz - take);
    }
  }

  /** Block k of the plan starts at byte k * BLOCK_SZ of the file. */
  lemma {:induction false} PlanOffsets(fileSz: nat, k: nat)
    requires k < |Plan(fileSz)|
    ensures Offset(Plan(fileSz), k) == k * BLOCK_SZ
    decreases k
  {
    if k > 0 {
      var lens := Plan(fileSz);
      PlanMatchesBlocks(fileSz);
      PlanOffsets(fileSz, k - 1);
      OffsetStep(lens, k - 1);
      assert lens[k - 1] == BlockLen(fileSz, k - 1) == BLOCK_SZ;
    }
  }

  /**
   * A file of n whole blocks is planned as n full blocks; one byte more adds
   * exactly one block, holding that single byte.
   */
  lemma WholeBlocks(n: nat)
    ensures BlockCount(n * BLOCK_SZ) == n
    ensures forall k :: 0 <= k < n ==> BlockLen(n * BLOCK_SZ, k) == BLOCK_SZ
    ensures BlockCount(n * BLOCK_SZ + 1) == n + 1
    ensures BlockLen(n * BLOCK_SZ + 1, n) == 1
  {
  }
}

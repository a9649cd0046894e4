/**
 * The program itself: read_and_print_file (open, size, plan the blocks,
 * one vectored read, emit) and the driver that runs it over the file names
 * given on the command line, stopping at the first failure.
 */
module Cat {
  import opened Common
  import opened Blocks
  import opened SizeResolver
  import opened Console
  import opened Vectored

  /**
   * Everything the operating system would answer about one named input:
   * whether open succeeds, what fstat and the capacity query report, which
   * posix_memalign call (counted from 0) fails if any does, whether readv
   * fails, and the bytes the file holds.
   */
  datatype Source = Source(
    opens: bool,
    stat: Option<Stat>,
    deviceBytes: Option<nat>,
    allocFailsAt: Option<nat>,
    readFails: bool,
    contents: seq<Byte>)

  /** The size get_file_size reports for a source, or -1. */
  function FileSize(src: Source): (r: int)
    ensures r >= -1
  {
    GetFileSize(src.stat, src.deviceBytes)
  }

  /**
   * The world agrees with itself: a size that is reported fits in a C int
   * and the file holds at least that many bytes. It may hold more (a file
   * that grew after fstat, a pseudo-file reporting size 0).
   */
  predicate Consistent(src: Source)
  {
    FileSize(src) >= 0 ==> FileSize(src) <= INT_MAX && FileSize(src) <= |src.contents|
  }

  /** One of the posix_memalign calls for blocks 0..blocks-1 fails. */
  predicate AllocationFails(allocFailsAt: Option<nat>, blocks: nat)
  {
    allocFailsAt.Some? && allocFailsAt.value < blocks
  }

  /**
   * read_and_print_file returns 1: open fails, the size is unknown (-1), a
   * buffer cannot be planned, or readv fails, which it does on its own
   * account or because there are more than IOV_MAX blocks.
   */
  predicate Fails(src: Source)
  {
    || !src.opens
    || FileSize(src) == -1
    || AllocationFails(src.allocFailsAt, BlockCount(FileSize(src)))
    || BlockCount(FileSize(src)) > IOV_MAX
    || src.readFails
  }

  /**
   * A file over IOV_MAX blocks (4 MiB), up to INT_MAX bytes, always fails:
   * it needs more iovec entries than one readv call accepts.
   */
  lemma OverIovMaxFails(src: Source)
    requires IOV_MAX * BLOCK_SZ < FileSize(src) <= INT_MAX
    ensures Fails(src)
  {
  }

  /** All buffers of a plan are real, BLOCK_SZ bytes long, fresh, and distinct. */
  twostate predicate FreshBuffers(new iovecs: array<IoVec>, count: nat)
    requires count <= iovecs.Length
    reads iovecs
  {
    && (forall k :: 0 <= k < count ==>
          iovecs[k].base != null && fresh(iovecs[k].base) && iovecs[k].base.Length == BLOCK_SZ)
    && (forall i, j :: 0 <= i < j < count ==> iovecs[i].base != iovecs[j].base)
  }

  /**
   * The planning part of read_and_print_file: computes the block count,
   * allocates that many iovec entries, and fills them in a loop that takes
   * min(bytes_remaining, BLOCK_SZ) per block, each with a new BLOCK_SZ-byte
   * buffer. Every write lands inside the entries planned. When a buffer
   * allocation fails the loop stops and `planned` is false.
   */
  method PlanBlocks(fileSz: nat, allocFailsAt: Option<nat>) returns (iovecs: array<IoVec>, planned: bool)
    requires fileSz <= INT_MAX
    ensures fresh(iovecs) && iovecs.Length == BlockCount(fileSz)
    ensures planned <==> !AllocationFails(allocFailsAt, iovecs.Length)
    ensures planned ==> Lengths(iovecs[..]) == Plan(fileSz)
    ensures planned ==> FreshBuffers(iovecs, iovecs.Length)
  {
    var bytesRemaining := fileSz;
    var blocks := fileSz / BLOCK_SZ;
    if fileSz % BLOCK_SZ != 0 {
      blocks := blocks + 1;
    }
    assert blocks == BlockCount(fileSz);
    iovecs := new IoVec[blocks];
    var currentBlock := 0;
    ghost var bufs: seq<array<Byte>> := [];
    while bytesRemaining != 0
      invariant currentBlock <= blocks
      invariant currentBlock < blocks ==> bytesRemaining == fileSz - currentBlock * BLOCK_SZ
      invariant currentBlock == blocks ==> bytesRemaining == 0
      invariant !AllocationFails(allocFailsAt, currentBlock)
      invariant |bufs| == currentBlock
      invariant forall k :: 0 <= k < currentBlock ==> iovecs[k] == IoVec(bufs[k], BlockLen(fileSz, k))
      invariant forall k :: 0 <= k < currentBlock ==> fresh(bufs[k]) && bufs[k].Length == BLOCK_SZ
      invariant forall i, j :: 0 <= i < j < currentBlock ==> bufs[i] != bufs[j]
      decreases bytesRemaining
    {
      assert currentBlock < blocks;
      PlanningStep(fileSz, currentBlock);
      var bytesToRead := bytesRemaining;
      if bytesToRead > BLOCK_SZ {
        bytesToRead := BLOCK_SZ;
      }
      if allocFailsAt == Some(currentBlock) {
        return iovecs, false;
      }
      var buf := new Byte[BLOCK_SZ];
      iovecs[currentBlock] := IoVec(buf, bytesToRead);
      bufs := bufs + [buf];
      currentBlock := currentBlock + 1;
      bytesRemaining := bytesRemaining - bytesToRead;
    }
    assert currentBlock == blocks;
    PlanMatchesBlocks(fileSz);
    planned := true;
  }

  /**
   * read_and_print_file: returns 1 on every failure, having written nothing;
   * otherwise returns 0 having written exactly the first FileSize(src) bytes
   * of the file, in order.
   */
  method ReadAndPrintFile(stdout: Stdout, src: Source) returns (status: int)
    requires Consistent(src)
    modifies stdout
    ensures status == (if Fails(src) then 1 else 0)
    ensures status == 0 ==> stdout.written == old(stdout.written) + src.contents[..FileSize(src)]
    ensures status != 0 ==> stdout.written == old(stdout.written)
  {
    if !src.opens {
      return 1;
    }
    var fileSz := GetFileSize(src.stat, src.deviceBytes);
    if fileSz == -1 {
      return 1;
    }
    var iovecs, planned := PlanBlocks(fileSz, src.allocFailsAt);
    if !planned {
      return 1;
    }
    var blocks := iovecs.Length;
    PlanSum(fileSz);
    PlanMatchesBlocks(fileSz);
    assert iovecs[..blocks] == iovecs[..];
    assert forall k :: 0 <= k < blocks ==> iovecs[k].len == Plan(fileSz)[k];
    assert Addressable(iovecs, blocks);
    var ret := ReadV(src.contents, src.readFails, iovecs, blocks);
    if ret < 0 {
      return 1;
    }
    FilledBuffers(iovecs, blocks, src.contents);
    EmitBlocks(stdout, iovecs, blocks, src.contents[..fileSz]);
    return 0;
  }

  /**
   * The closing loop of read_and_print_file: outputs the used bytes of
   * blocks 0..blocks-1 in order. After a full readv these are the first
   * bytes of the file, so the whole file is written, with nothing added.
   */
  method EmitBlocks(stdout: Stdout, iovecs: array<IoVec>, blocks: nat, contents: seq<Byte>)
    requires blocks <= iovecs.Length
    requires Addressable(iovecs, blocks)
    requires Sum(Lengths(iovecs[..blocks])) == |contents|
    requires forall k :: 0 <= k < blocks ==>
      iovecs[k].base[..iovecs[k].len]
        == contents[Offset(Lengths(iovecs[..blocks]), k)..Offset(Lengths(iovecs[..blocks]), k) + iovecs[k].len]
    modifies stdout
    ensures stdout.written == old(stdout.written) + contents
  {
    ghost var lens := Lengths(iovecs[..blocks]);
    var i := 0;
    while i < blocks
      invariant 0 <= i <= blocks
      invariant stdout.written == old(stdout.written) + contents[..Offset(lens, i)]
    {
      ghost var off := Offset(lens, i);
      OffsetStep(lens, i);
      assert iovecs[i].base[..iovecs[i].len] == old(iovecs[i].base[..iovecs[i].len]);
      stdout.OutputToConsole(iovecs[i].base, iovecs[i].len);
      PrefixThenSlice(contents, off, off + lens[i]);
      i := i + 1;
    }
    assert lens[..blocks] == lens;
    assert contents[..Offset(lens, blocks)] == contents;
  }

  /** Index of the first source that fails, or the number of sources when none does. */
  function FirstFailure(files: seq<Source>): (k: nat)
    ensures k <= |files|
    ensures forall j :: 0 <= j < k ==> !Fails(files[j])
    ensures k < |files| ==> Fails(files[k])
  {
    if files == [] then 0
    else if Fails(files[0]) then 0
    else 1 + FirstFailure(files[1..])
  }

  /** A source that read_and_print_file prints: its size is known and within its bytes. */
  predicate Prints(src: Source)
  {
    Consistent(src) && !Fails(src)
  }

  /**
   * The first FileSize bytes of each of the given sources, concatenated in
   * order, with nothing between them.
   */
  function Concat(files: seq<Source>): (out: seq<Byte>)
    requires forall k :: 0 <= k < |files| ==> Prints(files[k])
  {
    if files == [] then []
    else
      assert Prints(files[0]);
      files[0].contents[..FileSize(files[0])] + Concat(files[1..])
  }

  /** Appending a source to the list appends its first FileSize bytes to the concatenation. */
  lemma {:induction false} ConcatSnoc(files: seq<Source>, f: Source)
    requires forall k :: 0 <= k < |files| ==> Prints(files[k])
    requires Prints(f)
    ensures Concat(files + [f]) == Concat(files) + f.contents[..FileSize(f)]
    decreases |files|
  {
    if files == [] {
      assert [] + [f] == [f];
    } else {
      assert (files + [f])[1..] == files[1..] + [f];
      ConcatSnoc(files[1..], f);
    }
  }

  /**
   * main, for the file names argv[1..] (one Source each): with no file name
   * it returns 1; otherwise it processes the files in order and returns 1 at
   * the first failing one, having written the bytes of every file before it
   * and nothing of that file or any later one; if none fails it returns 0
   * having written the concatenation of all of them. Files after the first
   * failure are never opened, so nothing is asked of them.
   */
  method Run(stdout: Stdout, files: seq<Source>) returns (status: int)
    requires forall k :: 0 <= k < |files| && k <= FirstFailure(files) ==> Consistent(files[k])
    modifies stdout
    ensures status == 0 <==> |files| > 0 && forall k :: 0 <= k < |files| ==> !Fails(files[k])
    ensures status != 0 ==> status == 1
    ensures stdout.written == old(stdout.written) + Concat(files[..FirstFailure(files)])
    ensures status == 0 ==> stdout.written == old(stdout.written) + Concat(files)
  {
    if |files| == 0 {
      return 1;
    }
    var i := 0;
    while i < |files|
      invariant 0 <= i <= |files|
      invariant i <= FirstFailure(files)
      invariant forall j :: 0 <= j < i ==> !Fails(files[j])
      invariant stdout.written == old(stdout.written) + Concat(files[..i])
    {
      var r := ReadAndPrintFile(stdout, files[i]);
      if r != 0 {
        assert FirstFailure(files) == i;
        return 1;
      }
      assert files[..i + 1] == files[..i] + [files[i]];
      ConcatSnoc(files[..i], files[i]);
      i := i + 1;
    }
    assert files[..|files|] == files;
    return 0;
  }
}

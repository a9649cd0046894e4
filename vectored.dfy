/**
 * Scatter input: the iovec descriptor and a model of readv, which fills a
 * list of buffers, in list order, with consecutive bytes of a file.
 */
module Vectored {
  import opened Common
  import opened Blocks

  /**
   * The most descriptors one readv call accepts (IOV_MAX, 1024 on Linux);
   * a larger iovcnt makes the call fail with EINVAL.
   */
  const IOV_MAX: nat := 1024

  /** struct iovec: a buffer (iov_base) and the number of its bytes in use (iov_len). */
  datatype IoVec = IoVec(base: array?<Byte>, len: nat)

  /** The iov_len fields of a list of descriptors. */
  function Lengths(iov: seq<IoVec>): (lens: seq<nat>)
  {
    seq(|iov|, k requires 0 <= k < |iov| => iov[k].len)
  }

  /**
   * The first cnt descriptors point at real buffers large enough for their
   * lengths, and no two of them share a buffer.
   */
  ghost predicate Addressable(iov: array<IoVec>, cnt: nat)
    requires cnt <= iov.Length
    reads iov
  {
    (forall k :: 0 <= k < cnt ==> iov[k].base != null && iov[k].len <= iov[k].base.Length)
    && (forall i, j :: 0 <= i < j < cnt ==> iov[i].base != iov[j].base)
  }

  /**
   * Buffer k of the first cnt descriptors holds its iov[k].len bytes of
   * `contents`, taken right after the bytes held by buffers 0..k-1.
   */
  ghost predicate Filled(iov: array<IoVec>, cnt: nat, contents: seq<Byte>)
    requires cnt <= iov.Length
    requires Addressable(iov, cnt)
    requires Sum(Lengths(iov[..cnt])) <= |contents|
    reads iov, set k | 0 <= k < cnt :: iov[k].base
  {
    forall k, j :: 0 <= k < cnt && 0 <= j < iov[k].len ==>
      iov[k].base[j] == contents[Offset(Lengths(iov[..cnt]), k) + j]
  }

  /**
   * The filled buffers, read whole: the bytes in use of each are the bytes
   * read at its offset, where the bytes read are the first Sum of the
   * lengths bytes of `contents`.
   */
  lemma FilledBuffers(iov: array<IoVec>, cnt: nat, contents: seq<Byte>)
    requires cnt <= iov.Length
    requires Addressable(iov, cnt)
    requires Sum(Lengths(iov[..cnt])) <= |contents|
    requires Filled(iov, cnt, contents)
    ensures forall k :: 0 <= k < cnt ==>
      iov[k].base[..iov[k].len]
        == contents[..Sum(Lengths(iov[..cnt]))][Offset(Lengths(iov[..cnt]), k)..Offset(Lengths(iov[..cnt]), k) + iov[k].len]
  {
    var read := contents[..Sum(Lengths(iov[..cnt]))];
    forall k | 0 <= k < cnt
      ensures iov[k].base[..iov[k].len]
        == read[Offset(Lengths(iov[..cnt]), k)..Offset(Lengths(iov[..cnt]), k) + iov[k].len]
    {
      var off := Offset(Lengths(iov[..cnt]), k);
      assert forall j :: 0 <= j < iov[k].len ==>
        iov[k].base[..iov[k].len][j] == read[off..off + iov[k].len][j];
    }
  }

  /** Stores `data` at the start of buf; the rest of buf is left as it was. */
  method CopyInto(buf: array<Byte>, data: seq<Byte>)
    requires |data| <= buf.Length
    modifies buf
    ensures forall j :: 0 <= j < |data| ==> buf[j] == data[j]
    ensures forall j :: |data| <= j < buf.Length ==> buf[j] == old(buf[j])
  {
    forall j | 0 <= j < |data| {
      buf[j] := data[j];
    }
  }

  /**
   * readv(fd, iov, iovcnt) on a file whose bytes from the current position
   * are `contents`, and which holds at least the bytes requested. When the
   * call fails (`fails`) it returns -1; otherwise buffer k receives the
   * iov[k].len bytes that follow those delivered to buffers 0..k-1, and the
   * call returns the total number of bytes read. More than IOV_MAX
   * descriptors make the call fail as well. Short reads are not modelled.
   */
  method ReadV(contents: seq<Byte>, fails: bool, iov: array<IoVec>, iovcnt: nat) returns (ret: int)
    requires iovcnt <= iov.Length
    requires Addressable(iov, iovcnt)
    requires Sum(Lengths(iov[..iovcnt])) <= |contents|
    modifies set k | 0 <= k < iovcnt :: iov[k].base
    ensures fails || iovcnt > IOV_MAX ==> ret == -1
    ensures !fails && iovcnt <= IOV_MAX ==> ret == Sum(Lengths(iov[..iovcnt]))
    ensures !fails && iovcnt <= IOV_MAX ==> Filled(iov, iovcnt, contents)
  {
    if fails || iovcnt > IOV_MAX {
      return -1;
    }
    ghost var lens := Lengths(iov[..iovcnt]);
    var k := 0;
    var pos := 0;
    while k < iovcnt
      invariant 0 <= k <= iovcnt
      invariant pos == Offset(lens, k)
      invariant forall m, j :: 0 <= m < k && 0 <= j < lens[m] ==> iov[m].base[j] == contents[Offset(lens, m) + j]
    {
      OffsetStep(lens, k);
      var n := iov[k].len;
      CopyInto(iov[k].base, contents[pos..pos + n]);
      k := k + 1;
      pos := pos + n;
    }
    assert lens[..iovcnt] == lens;
    ret := pos;
  }
}

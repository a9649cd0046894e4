/**
 * get_file_size: the size of an open input, found from its stat record and,
 * for a block device, from the device capacity query (ioctl BLKGETSIZE64).
 * Both system calls are inputs here: a failed fstat or ioctl is None.
 */
module SizeResolver {
  import opened Common

  /** The classification of st_mode that get_file_size looks at. */
  datatype FileKind =
    | RegularFile   // S_ISREG
    | BlockDevice   // S_ISBLK
    | Unsupported   // anything else: pipe, terminal, socket, directory, character device

  /** What a successful fstat reports: the kind of file and st_size. */
  datatype Stat = Stat(kind: FileKind, size: nat)

  /**
   * get_file_size exactly as the source has it: for a block device the
   * capacity query is made, but its result is never returned, so control
   * falls through to the -1 of unsupported sources. Only a regular file
   * yields a size.
   */
  function GetFileSizeAsWritten(stat: Option<Stat>, deviceBytes: Option<nat>): (r: int)
    ensures r >= 0 <==> stat.Some? && stat.value.kind == RegularFile
    ensures r >= 0 ==> r == stat.value.size
    ensures r < 0 ==> r == -1
  {
    match stat
    case None => -1
    case Some(st) =>
      if st.kind == BlockDevice then
        match deviceBytes
        case None => -1
        case Some(_) => -1
      else if st.kind == RegularFile then st.size
      else -1
  }

  /**
   * get_file_size as its comment promises ("properly handles regular file and
   * block devices"): st_size for a regular file, the reported capacity for a
   * block device whose capacity query succeeds, and -1 for a failed fstat, a
   * failed capacity query or any other kind of source.
   */
  function GetFileSize(stat: Option<Stat>, deviceBytes: Option<nat>): (r: int)
    ensures r >= 0 <==>
      stat.Some? && (stat.value.kind == RegularFile || (stat.value.kind == BlockDevice && deviceBytes.Some?))
    ensures r >= 0 && stat.value.kind == RegularFile ==> r == stat.value.size
    ensures r >= 0 && stat.value.kind == BlockDevice ==> r == deviceBytes.value
    ensures r < 0 ==> r == -1
  {
    match stat
    case None => -1
    case Some(st) =>
      if st.kind == BlockDevice then
        match deviceBytes
        case None => -1
        case Some(bytes) => bytes
      else if st.kind == RegularFile then st.size
      else -1
  }

  /**
   * The two agree everywhere except on a block device whose capacity query
   * succeeds: there the source reports failure (-1) instead of the capacity.
   */
  lemma BlockDeviceSizeLost(stat: Option<Stat>, deviceBytes: Option<nat>)
    ensures GetFileSizeAsWritten(stat, deviceBytes) != GetFileSize(stat, deviceBytes) <==>
      stat.Some? && stat.value.kind == BlockDevice && deviceBytes.Some?
    ensures stat.Some? && stat.value.kind == BlockDevice && deviceBytes.Some? ==>
      GetFileSizeAsWritten(stat, deviceBytes) == -1 && GetFileSize(stat, deviceBytes) == deviceBytes.value
  {
  }

  /** A concrete instance: a 1 MiB disk whose capacity query succeeds. */
  lemma BlockDeviceCounterexample()
    ensures GetFileSizeAsWritten(Some(Stat(BlockDevice, 0)), Some(0x10_0000)) == -1
    ensures GetFileSize(Some(Stat(BlockDevice, 0)), Some(0x10_0000)) == 0x10_0000
  {
  }
}

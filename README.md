# A verified model of a minimal `cat` built on vectored reads

The program reads each file named on its command line and copies its bytes to
standard output. For each file it opens the file and finds its size
(`get_file_size`). It then cuts that size into 4096-byte blocks, allocates one
buffer and one `iovec` entry per block, and fills all buffers with a single
`readv` call. Finally it writes each buffer's bytes in order
(`output_to_console`). The driver (`main`) processes the files in argument
order and stops with status 1 at the first failure.

The model follows the source function by function:

- `Blocks` (`blocks.dfy`) holds the planning arithmetic as pure functions. It
  gives the block count as a ceiling division, the length of each block, and
  the plan the loop builds. Lemmas prove that the plan has the right number
  of entries, that each entry is between 1 and `BLOCK_SZ`, that all entries
  but the last are full, that the entries add up to the file size, and that
  block k starts at byte k·`BLOCK_SZ`.
- `SizeResolver` (`size_resolver.dfy`) models `get_file_size` as a function
  of the `fstat` result and the capacity-query (`ioctl`) result. There is one
  version as written and one corrected version (see Findings).
- `Console` (`console.dfy`) models standard output as a class whose field
  holds every byte written so far. `fputc` appends one byte, and
  `output_to_console` is its counting loop.
- `Vectored` (`vectored.dfy`) defines the `iovec` record and a model of
  `readv`. On success, `readv` fills buffer k with the `iov_len` file bytes
  that follow those given to buffers 0..k-1. On failure it returns -1, and
  it always fails when given more than `IOV_MAX` (1024, the Linux limit)
  entries.
- `Cat` (`cat.dfy`) holds the planning loop over an `iovec` array, the whole
  of `read_and_print_file`, and `main` over a list of abstract sources. The
  main result is the round trip: a successful file writes exactly its first
  size bytes, and a successful run writes the concatenation of all files in
  argument order.

The operating system is replaced by inputs. A `Cat.Source` records whether
`open` succeeds, what `fstat` and the capacity query report, which
`posix_memalign` call fails (if any), whether `readv` fails, and the bytes the
file holds.

## Model

| member | source | states |
|---|---|---|
| `Blocks.BlockCount` | cat/cat.c:72-76 | The block count is the ceiling of size / `BLOCK_SZ`: n·`BLOCK_SZ` ≥ size and (n-1)·`BLOCK_SZ` < size. It is 0 exactly for an empty file. |
| `Blocks.BlockLen` | cat/cat.c:88-90 | Every block's length is in 1..`BLOCK_SZ`. Every block but the last is exactly `BLOCK_SZ`. The last holds size - (n-1)·`BLOCK_SZ`. |
| `Blocks.PlanMatchesBlocks` | cat/cat.c:86-105 | The loop's plan (min(remaining, `BLOCK_SZ`) until nothing remains) has `BlockCount` entries, and entry k is `BlockLen(size, k)`. |
| `Blocks.PlanSum` | cat/cat.c:86-105 | The planned `iov_len` values add up to the file size. |
| `Blocks.PlanOffsets` | cat/cat.c:101-103 | Block k of the plan starts at file offset k·`BLOCK_SZ`. |
| `Blocks.WholeBlocks` | cat/cat.c:72-76 | n·`BLOCK_SZ` bytes give n full blocks. One byte more gives one extra block holding 1 byte. |
| `SizeResolver.GetFileSizeAsWritten` | cat/cat.c:15-40 | As written, the result is non-negative iff `fstat` succeeds on a regular file, and then it is `st_size`. Otherwise it is -1, block devices included. |
| `SizeResolver.GetFileSize` | cat/cat.c:11-40 | Corrected: `st_size` for a regular file, the reported capacity for a block device whose query succeeds, and -1 iff `fstat` fails, the query fails, or the source is of another kind. |
| `SizeResolver.BlockDeviceSizeLost` | cat/cat.c:26-34 | The two versions differ exactly on a block device whose capacity query succeeds. There, as written gives -1 and corrected gives the capacity. |
| `SizeResolver.BlockDeviceCounterexample` | cat/cat.c:26-34 | For a concrete 1 MiB device: as written -1, corrected 1048576. |
| `Console.Stdout.Putc` | cat/cat.c:51 | `fputc` appends exactly one byte to standard output. |
| `Console.Stdout.OutputToConsole` | cat/cat.c:47-53 | Appends exactly `buf[0..len)`, in order, to standard output, and nothing when `len` is 0. |
| `Vectored.ReadV` | cat/cat.c:107-119 | `readv` returns -1 on failure, and always when given more than `IOV_MAX` entries. Otherwise it returns the total requested, and buffer k holds the file bytes at [offset_k, offset_k + `iov_len`_k), where offset_k is the sum of the earlier lengths. |
| `Cat.OverIovMaxFails` | cat/cat.c:113-119 | Every file of 4 MiB + 1 byte up to `INT_MAX` bytes fails, because it needs more than `IOV_MAX` entries for its one `readv`. |
| `Cat.PlanBlocks` | cat/cat.c:72-105 | Allocates `BlockCount(size)` entries. Inside the method it is proved that every write `iovecs[current_block]` lands inside them and that the loop ends with `current_block == blocks`. It succeeds iff no `posix_memalign` call for blocks 0..n-1 fails. On success the `iov_len` values equal the plan, and the buffers are new, `BLOCK_SZ` bytes each, and pairwise distinct. |
| `Cat.EmitBlocks` | cat/cat.c:121-122 | Emitting blocks 0..n-1, once `readv` has filled them from the file, writes exactly the bytes read (the file's first size bytes), with nothing added. |
| `Cat.ReadAndPrintFile` | cat/cat.c:55-125 | Returns 1 iff open fails, the corrected size is -1, an allocation fails, there are more than `IOV_MAX` blocks or `readv` fails; otherwise 0. On 1 nothing is written. On 0 exactly the first size bytes of the file are written, in order, also when the file holds more. |
| `Cat.FirstFailure` | cat/cat.c:135-144 | Gives the index of the first failing file (or the number of files): every earlier file succeeds and that one fails. |
| `Cat.ConcatSnoc` | cat/cat.c:135-144 | Processing one more file appends exactly its first size bytes to the output so far. |
| `Cat.Run` | cat/cat.c:127-146 | Returns 0 iff at least one file is named and none fails (by the corrected size); otherwise 1. Writes the files before the first failure, each cut to its size, concatenated in order. On success this is every file. Nothing is asked of the files after the first failure, which are never opened. |

## Left out

- `open`, `fstat`, `ioctl(BLKGETSIZE64)`, `posix_memalign`, `readv` and `fputc` are not called. Their results are fields of `Cat.Source`, or stubs with contracts (`Vectored.ReadV`, `Console.Stdout.Putc`).
- Buffer alignment to `BLOCK_SZ` (cat/cat.c:94) is not modelled; an allocated buffer is a new `BLOCK_SZ`-byte array.
- Vectored.ReadV: short reads are not modelled. The call either fails or delivers every requested byte. The source does not handle short reads.
- Cat.ReadAndPrintFile: requires `Cat.Consistent`: a reported size fits in a C `int` and the file holds at least that many bytes. A file that shrank after `fstat` would give a short `readv`, and the source would print bytes never read; that case is not modelled.
- Cat.PlanBlocks: requires the size to fit in a C `int`, and the proof that every write lands inside the `iovec` array rests on that requires. The `(int) file_sz` cast at cat/cat.c:73 does worse than truncate. For a size of 2^32+1, `blocks` is 1 but the loop runs 2^20+1 times and writes far past the one-entry array. For sizes from 2^31 to 2^32-8192, and for 2^32-4096, `blocks` is negative, `malloc` gets a huge request, and the NULL it returns is dereferenced. For the other sizes just below 2^32, `blocks` is 0 or 1 and the loop writes past the array. None of this is modelled.
- Cat.PlanBlocks: the `malloc` result at cat/cat.c:78 is never checked, while the model's array allocation cannot fail.
- Cat.ReadAndPrintFile, Cat.Run: for a block device whose `BLKGETSIZE64` query succeeds, the source as written returns 1 with nothing written (cat/cat.c:39, cat/cat.c:66-69), whatever the device's size. The model uses the corrected size (see Findings), and then depends on that size. Up to 4 MiB it returns 0 and writes the device's bytes. From 4 MiB + 1 byte to `INT_MAX` it returns 1 with nothing written, like the source, because `readv` refuses more than `IOV_MAX` entries (`Cat.Fails`). Above `INT_MAX`, which covers every real disk, `Cat.Consistent` is false, so the `INT_MAX` requires excludes every block device over 2 GiB. The source handles that case without undefined behaviour: it returns 1.
- `Vectored.IOV_MAX` is the Linux value, 1024. On Linux every file from 4 MiB + 1 byte up to `INT_MAX` bytes whose buffers are all allocated takes the `readv` failure path at cat/cat.c:115-119. Larger files go wrong earlier (see the `Cat.PlanBlocks` line). Other systems with another limit are not modelled.
- Console.Stdout.Putc: always appends. The results of `fputc` (cat/cat.c:51) and `fflush` (cat/cat.c:138) are ignored by the source, so a write error still gives status 0; write errors are not modelled.
- The `int` result of `readv` (cat/cat.c:113) is treated as an exact count; its narrowing from `ssize_t` is not modelled.
- The output loop at cat/cat.c:121 reads an uninitialised `int i`. The model runs the evident loop from 0 to `blocks - 1` (`Cat.EmitBlocks`).
- Diagnostics on standard error (`perror`, `fprintf`, the usage message) are not modelled. Neither are `fflush(stdout)` and stdout buffering: the output stream is the sequence of bytes written.
- The source never calls `free` or `close`, including on its error paths. There is nothing to state, so memory and descriptor lifetimes are not modelled.
- Error kinds are not distinguished: like the source, every failure gives status 1.
- For an empty file the source still calls `readv` with zero entries, and a failure of that call gives status 1.

## Findings

| source | as written | input that shows it | evidently intended | confidence | as-written member | corrected member |
|---|---|---|---|---|---|---|
| cat/cat.c:26-39 | For a block device the capacity query's result `bytes` is never returned. A successful query falls through to `return -1`, so every block device is rejected as unsupported. | `fstat` reports a block device and `ioctl(BLKGETSIZE64)` succeeds with 1048576 | return `bytes`, as the comment at cat/cat.c:11-13 promises | high; not executed | `SizeResolver.GetFileSizeAsWritten` | `SizeResolver.GetFileSize` |

`Cat.ReadAndPrintFile` and `Cat.Run` use the corrected size, `SizeResolver.GetFileSize`. For every source other than a block device with a successful capacity query, the two versions agree (`SizeResolver.BlockDeviceSizeLost`). `SizeResolver.BlockDeviceCounterexample` gives the concrete input from the table.

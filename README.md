# histodu core in Dafny

histodu walks a directory tree and builds a histogram of file sizes. This
project models the two parts of it that hold the logic.

- **The directory walk** (`dir_size_histogram` and `traverse_dir`, src/lib.rs).
  - The root's expected device id is worked out first. This is needed only
    for the one-file-system filter.
  - Every directory is listed. Every entry is then handled as its own task:
    - an entry on another device is skipped, directories included;
    - a failing `metadata()` or `file_type()` call is reported against the
      entry's path;
    - a directory is walked in turn;
    - any other entry's length is recorded, unless it is zero and empty
      files are excluded.
  - A directory that cannot be listed, and an iterator item that fails, are
    reported and do not stop the rest of the walk.
- **The io_uring worker** (`Worker`, src/main.rs).
  - There is a table of 32 slots. Each slot holds a `statx` output buffer and
    the path it keeps alive, and a `u64` mask says which slots have an
    operation in flight.
  - `submit` claims the lowest free slot (`trailing_ones`) and sets its bit.
    When the table is full it waits for one completion.
  - `handle_completed` flips the bit of each completed slot. A success
    records its size under the include-empty rule; a failure prints the
    slot's path with the errno.
  - `drop` waits for everything still in flight and checks that the mask ends
    at zero.

Modules:

- `Wrappers` holds `Option` and `Result`.
- `Paths` holds paths as strings and `DirEntry::path` as `Join`, which
  follows `PathBuf::join`.
- `Mask` holds the `bv64` occupancy mask with `trailing_ones` and
  `count_ones`, and lemmas linking the mask to the set of occupied slot
  indices.
- `Uring` holds the value-level specification of the worker (`RingState`,
  `HandleOne`, `HandleAll`, `Claim`) and the imperative `Worker` class. The
  class keeps the source's `bufs` and `paths` arrays, `active_mask` and
  `include_empty`. It models the hdrhistogram recorder and standard error
  as the `recorded` and `errors` sequences. Its methods are proved against
  that specification.
- `Traverse` holds:
  - the file tree as a value;
  - the per-entry decision;
  - the walk, as functions (`Visit`, `Entries`, `Entry`) and as the methods
    `TraverseDir`/`WalkEntries`/`HandleEntry`;
  - `dir_size_histogram`;
  - lemmas showing that the order of siblings does not matter, what each
    kind of entry contributes, and what the include-empty rule changes.

The kernel and the file system are inputs.

- A wait on the ring hands back a sequence of completions. The kernel's
  contract has two halves.
  - `Uring.Deliverable`: each completion names a slot that is occupied when
    it is handled.
  - `submit_and_wait(n)` returns at least `n` completions. This half is in
    the requires of `Uring.Worker.Submit` (at least one when the claimed
    slot fills the table) and `Uring.Worker.Drop` (at least `count_ones`).
- Under that contract, the model proves each `assert!` of the worker:
  - the slot from `trailing_ones` is below 32 whenever `submit` is entered;
  - the slot of each completion is below 32;
  - the mask is zero at the end of `drop`.
- It also proves that the worker is never full when `submit` returns.

## Model

| member | source | states |
|---|---|---|
| Mask.LowestFree | src/main.rs:121-122 | on a well-formed mask, `trailing_ones` names a slot of the table exactly when the mask is not full; that slot is free and every slot below it is occupied |
| Mask.NoFreeSlot | src/main.rs:121-122 | when `trailing_ones` is 32 or more, every slot of the table is occupied |
| Mask.TrailingOnes | src/main.rs:121 | `trailing_ones` is at most 64, and below 64 it names a clear bit |
| Mask.TrailingOnesBelow | src/main.rs:121 | every slot below `trailing_ones` is occupied |
| Mask.SetSlot | src/main.rs:123 | `mask \|= 1 << k` on a free slot `k` adds exactly slot `k`, raises `count_ones` by one and keeps the mask within the table |
| Mask.SlotsSet | src/main.rs:123 | setting bit `k` adds exactly slot `k` to the occupied slots; a slot below 32 keeps the mask within the table |
| Mask.CountSet | src/main.rs:123 | setting a clear bit raises `count_ones` by one |
| Mask.ClearSlot | src/main.rs:154 | `mask ^= 1 << k` on an occupied slot `k` removes exactly slot `k`, lowers `count_ones` by one and keeps the mask within the table |
| Mask.SlotsClear | src/main.rs:154 | flipping the bit of an occupied slot removes exactly that slot and keeps the mask within the table |
| Mask.CountClear | src/main.rs:154 | flipping a set bit lowers `count_ones` by one |
| Mask.FullIff | src/main.rs:143 | a well-formed mask equals `(1 << IO_URING_ENTRIES) - 1` exactly when all 32 slots are occupied |
| Mask.CountOnes | src/main.rs:94 | `count_ones` of a 64-bit mask is at most 64 |
| Mask.CountSlots | src/main.rs:94 | `count_ones` is the number of occupied slots |
| Mask.CountZero | src/main.rs:94-99 | `count_ones` is zero exactly when the mask is zero, and the mask is zero exactly when no slot is occupied |
| Mask.InSlots | src/main.rs:86 | slot `j` is occupied exactly when bit `j` of the mask is set |
| Mask.Extensional | src/main.rs:86 | two masks with the same occupied slots are equal |
| Mask.InRangeSlots | src/main.rs:80-86 | a well-formed mask names only slots below `IO_URING_ENTRIES` |
| Uring.Initial | src/main.rs:104-115 | a new worker has no pending slot, keeps no path in any slot, has recorded and printed nothing, and is not full |
| Uring.Claim | src/main.rs:121-133 | claiming a free slot marks exactly it pending and stores the path there; other slots, the buffers and the outputs are unchanged |
| Uring.HandleOne | src/main.rs:151-168 | one completion frees exactly its slot. A success appends its size to the recorded sizes exactly when empty files are included or the size is non-zero, and prints nothing. A failure records nothing and appends the slot's path with the negated result as errno |
| Uring.HandleAll | src/main.rs:150-170 | handling a deliverable batch keeps the worker's invariant: 32 slots, every pending slot below 32 and keeping its path |
| Uring.Recorded | src/main.rs:156-160 | the recorded sizes are at most one per completion, and none is zero unless empty files are included |
| Uring.HandleAllPending | src/main.rs:150-154 | handling a deliverable batch frees exactly the slots it names, one per completion; a batch is never longer than the number of pending slots |
| Uring.HandleAllPaths | src/main.rs:150-170 | handling completions never changes the paths kept in the slots |
| Uring.HandleAllRecorded | src/main.rs:156-160 | after a batch, the recorded sizes are the old ones followed by the sizes of its successful completions, in order, under the include-empty rule |
| Uring.DeliverableKeepsPaths | src/main.rs:165 | every failed completion of a deliverable batch names a slot that still keeps a path, so the `unwrap` of the error branch cannot fail |
| Uring.HandleAllErrors | src/main.rs:161-167 | after a batch, the printed errors are the old ones followed by one per failed completion, in order, with that slot's path and errno |
| Uring.NeverFullOnReturn | src/main.rs:143-147 | after a slot is claimed and one completion is awaited when the table is full, the worker is not full |
| Uring.DrainToZero | src/main.rs:94-99 | waiting for as many completions as there are pending slots leaves none pending |
| Uring.Worker.constructor | src/main.rs:104-115 | a new worker has a zero mask, 32 empty buffers and paths, nothing recorded and is ready to submit |
| Uring.Worker.Submit | src/main.rs:117-148 | the slot chosen by `trailing_ones` is below 32 and free. The new state is that slot claimed for the path, then the awaited completions handled. The worker is again not full |
| Uring.Worker.Occupy | src/main.rs:119-141 | `trailing_ones` picks a free slot below 32, its bit is set and the path is stored in it |
| Uring.Worker.HandleCompleted | src/main.rs:150-170 | the new state is the old one with every completion handled in order; one slot is freed per completion |
| Uring.Worker.Complete | src/main.rs:151-168 | the new state is `HandleOne` of the old: the completion's slot is freed, then its size is recorded or its path reported. The `assert!` that the slot is below 32 is proved in its body |
| Uring.Worker.Record | src/main.rs:156-160 | the slot's buffer holds the size, and the size is recorded exactly when empty files are included or it is non-zero; nothing else changes |
| Uring.Worker.Report | src/main.rs:161-167 | one error naming the slot's path and the errno is printed; nothing else changes |
| Uring.Worker.Drop | src/main.rs:92-100 | waiting for `count_ones` completions handles all of them and leaves the mask zero |
| Traverse.Decide | src/lib.rs:84-116 | see the note below this table |
| Paths.Join | src/lib.rs:118 | the joined path starts with the directory's path and ends with the name. A `/` comes just before the name whenever the directory's path is not empty. It is added only when the directory's path does not already end in one |
| Traverse.Visit | src/lib.rs:67-76 | every report of a walk names the walked directory or a path beneath it, in whole components (`Paths.Beneath`), not merely a string with it as prefix |
| Traverse.Entries | src/lib.rs:78-127 | every report for a directory's entries names that directory or a path beneath it |
| Traverse.Entry | src/lib.rs:82-126 | every report for one entry names its directory or a path beneath it |
| Traverse.WalkEntries | src/lib.rs:78-127 | the loop over the iterator handles each item as its closure does and adds up the results; this equals `Entries` for every listing |
| Traverse.HandleEntry | src/lib.rs:78-126 | one iterator item computes the entry's contribution, for every item: the loop's error arm reports an unreadable item against the directory, and the closure spawned for an entry follows `Decide` |
| Traverse.TraverseDir | src/lib.rs:67-128 | equals `Visit` for every directory: one report for its path when it cannot be listed, otherwise the contributions of all its entries, recursively |
| Traverse.ExpectedDevice | src/lib.rs:30-47 | see the note below this table |
| Traverse.DirSizeHistogram | src/lib.rs:27-63 | fails, with the single report of the device error against the root, exactly when `ExpectedDevice` fails. Otherwise the histogram holds exactly the sizes the walk records, and the reports are exactly the walk's |
| Traverse.EntriesAppend | src/lib.rs:78-127 | walking two runs of entries yields the sum of walking each run |
| Traverse.EntryContribution | src/lib.rs:82-126 | each entry contributes its own outcome whatever its siblings do: a listing's outcome is its outcome without entry `i` plus entry `i`'s |
| Traverse.EntriesReorder | src/lib.rs:78-82 | any reordering of a directory's listing yields the same sizes and the same reports |
| Traverse.ForeignDeviceSkipped | src/lib.rs:87-90 | an entry on a device other than the root's contributes nothing: no size, no report, no descent |
| Traverse.UnreadableEntryReported | src/lib.rs:79-81 | a failing iterator item adds exactly one report against the directory; its siblings are still walked |
| Traverse.FailedEntryReported | src/lib.rs:123-125 | an entry whose metadata or file-type call fails adds exactly one report, against its own path, and no size |
| Traverse.FileRecordedOnce | src/lib.rs:103-116 | an admitted file adds its length exactly once, unless the length is zero and empty files are excluded |
| Traverse.SubdirectoryWalked | src/lib.rs:117-119 | an admitted directory adds the walk of its own contents under its own path, with the same configuration and expected device |
| Traverse.UnopenableSubdirectoryReported | src/lib.rs:73-76 | an admitted subdirectory that cannot be listed adds exactly one report for its own path and no size |
| Traverse.IncludeEmptyVisit | src/lib.rs:108-110 | excluding empty files changes a whole walk only by dropping the zero sizes; the other sizes and all reports are those of the walk that includes them |
| Traverse.NoEmptyRecorded | src/lib.rs:108-110 | with empty files excluded, no walk records a zero size |

The notes for two rows:

- **Traverse.Decide.** An entry is descended into exactly when it is a
  directory that passes the type/device step. It is recorded, with its
  length, exactly when it is a file that passes that step, has readable
  metadata, and is non-empty or empty files are included.
  - It fails exactly when:
    - with a device filter, `metadata()` fails;
    - without one, `file_type()` fails, or the entry is a file whose
      `metadata()` fails.
  - The failure names the call that failed.
- **Traverse.ExpectedDevice.** It is an error exactly when one-file-system
  is on and either the platform is not unix or the root's metadata fails:
  - `Unsupported` off unix;
  - the metadata error on unix.

  Otherwise it is the root's device when one-file-system is on, and no
  filter when it is off.

## Left out

- Real io_uring calls are not modelled. `submit_and_wait` and the completion
  queue become a sequence of completions passed to `Submit`,
  `HandleCompleted` and `Drop`, with the kernel's contract `Deliverable`.
  The kernel's write of `stx_size` into the slot's buffer is part of each
  completion.
- The `unwrap` of `submit_and_wait` and `push` is left out. The model
  assumes the ring calls succeed.
- The `statx` struct layout is not modelled; only `stx_size` is kept. Also
  left out are `stx_mask = STATX_SIZE`, `AT_SYMLINK_NOFOLLOW`, `AT_FDCWD`
  and the unsafe buffer handling, because they only set up the kernel call.
- Building the NUL-terminated `CString` from the path is not modelled; a
  path is a string.
- The formatting of the error message is left out (`to_string_lossy`,
  `io::Error` display). A printed error is the pair of path and errno.
- `hdrhistogram` is not modelled: its recorders, `refresh_timeout`, the
  significant figures and the auto-resize `expect`.
  - The worker's recorder is the sequence of recorded sizes.
  - The walk's histogram is the multiset of recorded sizes.
- The rayon thread pool, `threads`, scoped thread-locals and task spawning
  are not modelled.
  - The walk is sequential and returns its sizes and reports as multisets,
    which is all the concurrent walk makes observable.
  - `Traverse.EntriesReorder` shows that the order of entries does not
    change the result.
- `on_error` is modelled as the multiset of reports the walk returns.
- Which error happened is modelled as a `Cause`; the `io::Error` values
  themselves are not.
- Widths are not modelled: sizes, device ids, `user_data` and errno are
  unbounded integers, not `u64`/`i32`. The only arithmetic on them is
  negating a failed completion's `i32` result into an errno, which cannot
  overflow for a real errno.
  The mask itself is a `bv64`, as in the source.
- The file system is not read. The tree is an input value that says, for
  each entry, what `metadata()` and `file_type()` return or whether they
  fail.
  - The root's device id is an input.
  - Whether the platform is unix is a parameter.
  - The symlink semantics of `DirEntry::metadata` are not modelled further.
- The `unreachable!()` branch off unix is not modelled. It cannot be
  reached, because there `DirSizeHistogram` fails before walking whenever a
  device filter would be set.
- `main`, `spawn_traverse`, the command line (src/cli.rs), the output
  formatting and JSON, and build.rs are not part of this model.
- Uring.Worker.HandleCompleted: states the number of freed slots through
  `|Slots(activeMask)|` rather than `count_ones`. `Mask.CountSlots` proves
  that the two are equal.
- Traverse.ExpectedDevice: off unix it follows `dir_size_histogram`. It
  reports `Unsupported` against the root and returns `Err(())`. It does not
  disable the filter and go on walking.

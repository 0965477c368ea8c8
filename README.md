# duplicate-kriller's `Scanner`, modelled in Dafny

This project models the duplicate-finding engine of duplicate-kriller
(`src/dupe.rs`). That engine walks directories, files every regular file
under its inode `(dev, ino)`, and then files every new inode under its content
fingerprint. When a fingerprint is seen again, it merges the content bucket: each
duplicate path is replaced by a hard link to the first path of the bucket's
anchor, the member with the most links. The model is a single-threaded state
machine. The filesystem is an oracle value, and the `Scanner` object is a Dafny
class whose methods are proved to change its fields exactly as a functional
specification says.

Files:

- `types.dfy` (`Types`): paths, `u64`, handles, metadata, `FileSet`, listener
  events, I/O errors and panics, `Status`, `Settings`, `Stats`, queue items and
  the `FileSystem` oracle.
- `order_key.dfy` (`Ordering`): the queue key `!(ino >> 8)` and what it means
  for the visit order.
- `merge.dfy` (`Merging`): `dedupe` as functions.
  - `Merge` is the closed form: the longest passing prefix of the duplicate
    paths is moved to the anchor, and the rest of the failing member is dropped.
  - `Drain`/`Advance`/`DrainOne` are the member-by-member loop as written, proved equal
    to `Merge`.
  - The lemmas cover the merge's shape on success and on failure, path
    conservation, the dry run, and the anchor choice.
- `index.dfy` (`Index`): the two indices over the FileSet arena, with the
  invariants that keep every merge free of the two panics a bucket can cause
  (`.expect` on an empty bucket and `paths[0]` on an anchor with no path).
  Each update that `add` makes is proved to keep them. The `assert_ne!`
  panic on a self-link stays a possible outcome.
- `traversal.dfy` (`Traversal`): what a directory listing queues, the item
  `pop` takes, and a weight that shows `flush` terminates.
- `state.dfy` (`ScanState`): the scanner's fields as one value, and
  `add`/`scan_dir`/`flush`/`enqueue`/`scan` as functions on it. The lemmas
  cover the invariant, the counters, the queue and the outcomes.
- `scanner.dfy` (`Scanner`): class `Scanner`, with its fields and imperative
  methods: `while` loops in `dedupe`, `scan_dir`, `flush` and `dupes`.

Modelling choices:

- `Rc<Mutex<FileSet>>` becomes a handle into the arena field `arena: seq<FileSet>`.
  `by_inode` becomes `map<InodeId, Handle>` and `by_content` becomes
  `map<Fingerprint, seq<Handle>>`.
- `to_scan` is a `seq<QueueItem>`. A pop takes the first item with the largest
  key, as `BinaryHeap::pop` returns a largest element.
- Listener calls are appended to `events`. Two ghost fields record more:
  - `owner`: the bucket each FileSet was filed under;
  - `lost`: the paths that failed merges took out of every FileSet.
- Results are a `Status`: `Ok`, `Err(IoError)` (an `io::Error` returned with
  `?`), or `Panic(Abort)`. A panic stands for `assert_ne!`, the `paths[0]`
  index and the `expect` on an empty bucket, and it propagates like an error.
  `Scanner.Valid()` rules out the last two for every bucket that `add` merges.
- The filesystem is the value `FileSystem`:
  - `canonical`, `meta` and `listing` maps, where a missing key is a failing call;
  - `linkFails`/`renameFails`, the duplicate paths whose hard link to the
    temporary name, or whose rename onto the duplicate, fails.

The model follows the code where it differs from the comments beside it.
Those comments are src/dupe.rs:132, which says the highest (presumed
newest) inodes are scanned first, and 114-115 on which errors `scan_dir`
ignores. The comment at src/dupe.rs:56-58 agrees with the code that the
visit goes in inode-bucket order. The last
two points below are behaviour of the code that is easy to miss:

- The queue key is `!(ino >> 8)` in a max-heap. So `flush` visits the directory
  with the *smallest* inode bucket first, not the newest. `Traversal.PopsSmallestBucket`
  proves this for each pop. Over a whole `flush` the popped keys need not
  be non-increasing: a subdirectory queued during a walk can have a larger
  key than the directory just visited (a child in a lower inode bucket than
  its parent), and it can then be popped next.
- In `scan_dir`, an entry whose metadata cannot be read (`entry.metadata()?`)
  ends the directory walk with that error. That error also ends `flush` and
  `scan`, with the rest of the queue left in place. Only entries that
  `read_dir` cannot yield are skipped. Errors of `add` are swallowed, but its
  panics are not.
- `stats.hardlinks` counts the paths that reached an inode that was already
  known.
- `add`'s own merge error is returned from `enqueue`/`scan` for the root path.
  Inside a directory walk it is dropped.

## Model

| member | source | states |
|---|---|---|
| Ordering.KeyOrdersBuckets | src/dupe.rs:130-134 | a key is larger exactly when the inode bucket is smaller, and equal exactly when the buckets are equal |
| Ordering.LargerKeySmallerInode | src/dupe.rs:130-134 | a directory with a strictly larger key has a strictly smaller inode number |
| Ordering.OrderKeyAntitone | src/dupe.rs:133 | the key never increases as the inode number grows |
| Merging.AnchorIsMax | src/dupe.rs:190 | `max_by_key((links, !i))`: the anchor has the largest link count, and every earlier member has a strictly smaller one, so ties go to the earliest |
| Merging.AnchorAppend | src/dupe.rs:180-190 | when a member joins a bucket, the anchor stays unless the newcomer has strictly more links |
| Merging.MovedSpec | src/dupe.rs:201-227 | the paths of a drained list are linked in order up to the first failing step: all before it pass and it fails |
| Merging.MovedDryRun | src/dupe.rs:205-209 | a path whose live step passes also passes in a dry run |
| Merging.StopSpec | src/dupe.rs:195-201 | the member where the drain stops is not the anchor and holds a failing path |
| Merging.StopPasses | src/dupe.rs:195-201 | every path of the members before the stopping member passes its step |
| Merging.MergeSplitsDuplicates | src/dupe.rs:195-233 | the duplicate paths are, in order, the moved ones, the dropped ones and those of later members; every moved path passed; the first dropped path failed; nothing is dropped only when every member was drained |
| Merging.MergeFailsOnFirstDropped | src/dupe.rs:200-201 | the merge succeeds iff it drops nothing, iff no member fails, iff every duplicate path moved; on failure its status is the first dropped path's step |
| Merging.MergeFrame | src/dupe.rs:193-194 | no link count changes and no FileSet outside the bucket changes; the anchor keeps its paths, the link source first, followed by the moved ones |
| Merging.MergeSucceeds | src/dupe.rs:195-233 | after a successful merge the anchor holds its old paths and then every duplicate path in member order, and every other member is empty |
| Merging.MergeFailureShape | src/dupe.rs:218-226 | after a failed merge, the failing member and every non-anchor member before it are empty, and the members after it are untouched |
| Merging.MergeAtFailure | src/dupe.rs:199-226 | the merged value when a member fails: earlier members and that member's passing prefix moved, its remainder dropped, the status that of its failing step |
| Merging.MergeStopsAt | src/dupe.rs:195-226 | the same value, for the member `i` that is the first to hold a failing path |
| Merging.MergeCompletes | src/dupe.rs:195-235 | when every member passes whole, the merge moves all duplicates and ends `Ok` |
| Merging.MergeOutcomes | src/dupe.rs:202-226 | a merge over a ready bucket ends `Ok`, with a hard_link or rename error, or with the `assert_ne!` panic |
| Merging.DryRunNeverErrs | src/dupe.rs:205-209 | a dry run never fails with an I/O error |
| Merging.DryRunIgnoresFileSystem | src/dupe.rs:205-209 | a dry run makes no filesystem call: its merge (arena, moved and dropped paths, outcome) is the same under every filesystem |
| Merging.DryRunMatchesLive | src/dupe.rs:205-232 | a dry run reports the same merge (arena, moved paths, outcome) as a live run that succeeds |
| Merging.MergeConserves | src/dupe.rs:199-232 | the paths in the arena after the merge, plus the dropped ones, are exactly as many as before |
| Merging.DrainSticks | src/dupe.rs:200-226 | once a member's drain fails, the loop over the bucket ends there |
| Merging.DrainStep | src/dupe.rs:195-233 | one turn of the outer loop (`Advance`) on a member before the stopping one keeps the arena settled, with every path moved and none dropped |
| Merging.DrainBefore | src/dupe.rs:195-233 | the member-by-member loop, up to the stopping member, has moved every path and dropped none |
| Merging.DrainAtStop | src/dupe.rs:199-226 | draining the stopping member moves its passing prefix, drops the rest, and ends with its failing step |
| Merging.DrainIsMerge | src/dupe.rs:195-235 | the nested loop as written (`Drain`, `DrainOne`) computes exactly the closed-form `Merge` |
| Merging.EventsConcat | src/dupe.rs:206 | listener events of consecutive moves concatenate |
| Merging.SettleTotal | src/dupe.rs:199-232 | the number of paths in the settled arena is the old number, less the paths of the drained members, plus the moved ones |
| Merging.DrainedHeld | src/dupe.rs:199-201 | the drained members held exactly the moved paths followed by the dropped ones, in bucket order |
| Index.InodesNew | src/dupe.rs:157-162 | a new inode entry for a new FileSet keeps the inode index one-to-one and whole |
| Index.BucketsPush | src/dupe.rs:163-167 | a hard link's path added to a FileSet keeps every bucket ready |
| Index.BucketsNew | src/dupe.rs:173-176 | a new one-member bucket keeps the content index whole |
| Index.JoinReady | src/dupe.rs:177-182 | a bucket that a FileSet with a path joins still has an anchor with a path |
| Index.BucketsJoin | src/dupe.rs:177-182 | a FileSet joining an existing bucket keeps the content index whole |
| Index.MergedReady | src/dupe.rs:190-194 | a bucket stays ready after a merge over it |
| Index.BucketsMerge | src/dupe.rs:188-236 | a merge over one bucket keeps every bucket ready and distinct |
| Traversal.QueuedLonger | src/dupe.rs:117-118 | every directory a listing queues has a path longer than its parent's |
| Traversal.LongerShrinks | src/dupe.rs:117-118 | an entry of a listed directory has fewer listed directories at least as long as itself |
| Traversal.VisitLowersWeight | src/dupe.rs:105-106 | popping a directory and queueing its subdirectories lowers the queue's weight, so `flush` ends |
| Traversal.FirstMaxIsMax | src/dupe.rs:105 | the popped item has the largest key, and every item before it a strictly smaller one |
| Traversal.PopsSmallestBucket | src/dupe.rs:105 | of directories keyed by `!(ino >> 8)`, the one popped has the smallest inode bucket |
| ScanState.Initial | src/dupe.rs:67-79 | the state of `Scanner::new` satisfies the invariant |
| ScanState.AddStepQueued | src/dupe.rs:129-135 | a directory pushes `(!(ino >> 8), path)` onto the queue and changes nothing else |
| ScanState.AddStepSkipped | src/dupe.rs:136-149 | a symlink, a non-file, an empty file, and a small file when ignored each add one to `skipped` and change nothing else |
| ScanState.AddStepHardlink | src/dupe.rs:151-168 | a known inode: `added` and `hardlinks` go up by one, the path joins its FileSet, and the content index is untouched |
| ScanState.AddStepUnique | src/dupe.rs:151-176 | a new inode with new content gets a FileSet of its own and a one-member bucket |
| ScanState.AddStepDuplicate | src/dupe.rs:151-183 | a new inode with known content joins the bucket, adds one to `dupes`, and the bucket is merged |
| ScanState.JoinedBucket | src/dupe.rs:177-182 | the bucket a new FileSet joins holds distinct handles, all within the grown arena, so `dedupe` can run on it |
| ScanState.DedupeEmpty | src/dupe.rs:190 | a merge over an empty bucket panics and changes nothing |
| ScanState.DedupeNoSource | src/dupe.rs:193-194 | a merge whose anchor has no path panics and changes nothing |
| ScanState.DedupeDrains | src/dupe.rs:188-236 | the state after `dedupe`, as the member-by-member drain computes it |
| ScanState.DedupeKeepsInv | src/dupe.rs:182 | a merge over a content bucket keeps the invariant |
| ScanState.AddHardlinkKeepsInv | src/dupe.rs:163-167 | the hard-link branch keeps the invariant |
| ScanState.AddUniqueKeepsInv | src/dupe.rs:157-176 | the new-content branch keeps the invariant |
| ScanState.AddDuplicateKeepsInv | src/dupe.rs:157-183 | the duplicate branch keeps the invariant |
| ScanState.AddKeepsInv | src/dupe.rs:125-186 | `add` keeps the invariant: `added == |FileSets| + hardlinks == |by_inode| + hardlinks`, `dupes + |buckets| == |FileSets|`, both indices whole, and the paths held by all FileSets plus the lost paths number exactly `added` (a count, not membership) |
| ScanState.AddStatus | src/dupe.rs:125-186 | `add` ends `Ok`, with a hard_link or rename error, or with the self-link panic; a dry run never errs |
| ScanState.AddQueues | src/dupe.rs:129-135 | `add` queues exactly the directory entries, with their key |
| ScanState.AddCounts | src/dupe.rs:138-151 | `skipped` rises by one exactly for a symlink, another non-file, an empty file, or (with `ignore_small`) a file smaller than one block; `added` rises by one exactly for the other regular files; a directory changes neither |
| ScanState.IgnoreSmallOnlySkips | src/dupe.rs:146-149 | `ignore_small` only turns admitted files into skipped ones, and only files smaller than a block |
| ScanState.SizeFilter | src/dupe.rs:146-149 | a regular file is skipped iff it is empty or (with `ignore_small`) smaller than a block; empty is always skipped, exactly one block never |
| ScanState.ScanKeepsInv | src/dupe.rs:117-120 | walking a directory's entries keeps the invariant |
| ScanState.ScanQueues | src/dupe.rs:117-120 | a directory walked to its end queues exactly the subdirectories it lists, in order |
| ScanState.ScanStatus | src/dupe.rs:113-122 | a walk ends `Ok`, with a listing or metadata error, or with the self-link panic; merge errors are dropped |
| ScanState.FlushSpec | src/dupe.rs:103-111 | `flush` keeps the invariant, empties the queue when it succeeds, and fails only as a walk does |
| ScanState.EnqueueKeepsInv | src/dupe.rs:95-100 | `enqueue` keeps the invariant |
| ScanState.ScanSpec | src/dupe.rs:89-93 | `scan` keeps the invariant, leaves no directory queued when it succeeds, and fails only with the listed errors or the self-link panic |
| Scanner.Scanner.constructor | src/dupe.rs:67-79 | `ignore_small` set, `dry_run` clear, everything else empty |
| Scanner.Scanner.Scan | src/dupe.rs:89-93 | changes the fields exactly as `ScanRun`, and keeps `Valid()` |
| Scanner.Scanner.Enqueue | src/dupe.rs:95-100 | changes the fields exactly as `EnqueueStep`: canonicalize, metadata, `add` |
| Scanner.Scanner.Flush | src/dupe.rs:103-111 | the `while let ... pop()` loop changes the fields exactly as `FlushRun` |
| Scanner.Scanner.FlushOne | src/dupe.rs:105-106 | one pop-and-walk step of `FlushRun`; on success the queue's weight drops |
| Scanner.Scanner.ScanDir | src/dupe.rs:113-122 | the entry loop changes the fields exactly as `VisitStep` |
| Scanner.Scanner.ScanEntry | src/dupe.rs:117-119 | one entry of the loop: skipped, ending the walk, or added |
| Scanner.Scanner.Dupes | src/dupe.rs:238-243 | returns a copy of every FileSet, each exactly once |
| Scanner.Scanner.Add | src/dupe.rs:125-186 | changes the fields exactly as `AddStep`, and keeps `Valid()` |
| Scanner.Scanner.Classify | src/dupe.rs:128-151 | the classification chain of `add` changes the fields exactly as `AddStep` |
| Scanner.Scanner.Admit | src/dupe.rs:151-168 | the inode tier: hard link, or on to the content tier |
| Scanner.Scanner.AdmitNew | src/dupe.rs:157-183 | a new FileSet, then a new bucket or a merge |
| Scanner.Scanner.Duplicate | src/dupe.rs:177-183 | `dupes` up by one, the handle appended to the bucket, then `dedupe` |
| Scanner.Scanner.Dedupe | src/dupe.rs:188-236 | changes the arena, events and lost paths exactly as `DedupeStep` |
| Scanner.Scanner.DrainMembers | src/dupe.rs:195-198 | the outer loop leaves the state of `Drain` over the whole bucket |
| Scanner.Scanner.DrainNext | src/dupe.rs:195-199 | one member of the outer loop, the anchor skipped |
| Scanner.Scanner.DrainMember | src/dupe.rs:199-233 | the inner `drain(..)` loop leaves the state of `DrainOne` |
| Scanner.Scanner.Link | src/dupe.rs:202-231 | `assert_ne!`, the dry-run event, or hard_link, rename and the `hardlinked` event |

## Left out

- The filesystem calls `canonicalize`, `symlink_metadata`, `read_dir`,
  `hard_link`, `rename` and `remove_file` are an oracle value. The temporary
  file name and the best-effort removal of the temporary file have no effect
  on the bookkeeping and are not modelled.
- The `debug_assert!`s that stat the filesystem (src/dupe.rs:203, 212-214,
  228-230) are left out: the model follows a release build, where they never
  run. The two `symlink_metadata(..)?` calls inside the one at line 203 are
  compiled in every build but executed only in a debug build, where their
  errors would end the merge; a release build never makes those calls.
- Content fingerprints (`FileContent::new`) are an opaque value that comes
  with the metadata. Lazy hashing and its I/O are left out.
- Timing, `println!` reporting, and the listener's `file_scanned` and
  `scan_over` calls are left out. `set_listener` is not modelled. Only the
  `hardlinked`/`duplicate_found` calls are kept, as the `events` log.
- `Rc<Mutex<…>>` locking, lock poisoning after a panic, and unwinding are left
  out. A panic is a status value returned with the state as it was, and the
  drained paths not yet moved are counted as lost.
- `usize` counters cannot overflow in the model, because they are unbounded.
  The inode number is a `u64` bounded by a subset type.
- Scanner.Scanner.FlushOne: when two queued items share a key,
  `BinaryHeap` pops the one with the larger `PathBuf`. The model pops the
  first of them in queue order instead.
- `FileSet::push` takes a link count that `file.rs` may use. The model appends
  the path and leaves `links` unchanged, and `file.rs` is not part of this
  model. `FileSet::links()` is the recorded count.
- ScanState.AddKeepsInv: the invariant states `dupes + number of buckets ==
  number of FileSets`. It does not state that every FileSet lies in a bucket,
  so the equivalent sum `dupes == Σ (|bucket| − 1)` is not proved.
- Scanner.Scanner.Dedupe: it requires a bucket of distinct handles. That holds
  for every bucket `add` builds, because each FileSet is filed once, and
  `Valid()` carries that fact to `Add`.
- `flush` terminates only on a filesystem where every listed entry's path
  is longer than its directory's path (`FileSystem.WellFormed`), as `read_dir`
  guarantees by joining names. The model has no fuel bound.
- The filesystem oracle is fixed for a whole `scan` or `flush`: a live merge
  does not update it. After a path is relinked onto the anchor's inode, a
  later visit of that same path in the same flush (possible when two queued
  roots overlap) still reads its old metadata. The model then files it under
  its old, emptied FileSet, and a later merge may relink it again. The
  program would see the new inode and file it under the anchor.
- `enqueue`/`flush` exposed separately for several roots: both are modelled
  as methods. A sequence of several calls is not given a lemma of its own.

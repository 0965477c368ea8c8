/**
 * The scanner's state as one value, and the effect of each of its
 * operations on it: `add`, `scan_dir`, `flush`, `enqueue`, `scan`. The
 * class `Scanner.Scanner` is proved to change its fields exactly as these
 * functions say; the lemmas here state what the operations keep and count.
 */
module ScanState {
  import opened Types
  import opened Ordering
  import opened Merging
  import opened Index
  import opened Traversal

  /**
   * The scanner's fields, with two ghost records: `owner`, the content bucket
   * each FileSet was filed under, and `lost`, the paths that failed merges
   * took out of every FileSet.
   */
  datatype State = State(
    arena: seq<FileSet>,
    byInode: map<InodeId, Handle>,
    byContent: map<Fingerprint, seq<Handle>>,
    toScan: seq<QueueItem>,
    stats: Stats,
    events: seq<Event>,
    owner: seq<Fingerprint>,
    lost: seq<Path>)

  /** A state after an operation, with the operation's outcome. */
  datatype Run = Run(state: State, status: Status)

  /**
   * What every reachable state satisfies: both indices are whole, each
   * admitted path either made a FileSet or joined one as a hard link, each
   * FileSet either opened a content bucket or joined one as a duplicate, and
   * every admitted path is in a FileSet or was lost by a failed merge.
   */
  predicate Inv(s: State)
  {
    && InodesIndexed(s.arena, s.byInode)
    && Buckets(s.arena, s.byContent, s.owner)
    && s.stats.added == |s.arena| + s.stats.hardlinks
    && s.stats.dupes + |s.byContent.Keys| == |s.arena|
    && TotalPaths(s.arena) + |s.lost| == s.stats.added
  }

  /** The state of `Scanner::new`: everything empty. */
  function Initial(): (s: State)
    ensures Inv(s)
  {
    State([], map[], map[], [], Stats(0, 0, 0, 0), [], [], [])
  }

  /** Where `add` sends an entry. */
  datatype Route = ToQueue | Skipped | Admitted

  /**
   * Directories go to the queue; symlinks, other non-files, empty files and,
   * with `ignoreSmall`, files smaller than one filesystem block are skipped;
   * the rest are admitted to the indices.
   */
  function RouteOf(meta: Metadata, ignoreSmall: bool): Route
  {
    if meta.kind == Dir then ToQueue
    else if meta.kind == Symlink then Skipped
    else if meta.kind != Regular then Skipped
    else if meta.size == 0 || (ignoreSmall && meta.size < meta.blksize) then Skipped
    else Admitted
  }

  /** `add`: one entry with its metadata. */
  function AddStep(s: State, path: Path, meta: Metadata, settings: Settings, fs: FileSystem): Run
    requires Inv(s)
  {
    match RouteOf(meta, settings.ignoreSmall)
    case ToQueue => Run(s.(toScan := s.toScan + [QueueItem(OrderKey(meta.ino), path)]), Ok)
    case Skipped => Run(s.(stats := s.stats.(skipped := s.stats.skipped + 1)), Ok)
    case Admitted =>
      var stats := s.stats.(added := s.stats.added + 1);
      var id := InodeId(meta.dev, meta.ino);
      if id in s.byInode then
        var h := s.byInode[id];
        Run(s.(arena := s.arena[h := s.arena[h].Push(path)], stats := stats.(hardlinks := stats.hardlinks + 1)), Ok)
      else
        var h := |s.arena|;
        var fp := meta.fingerprint;
        var f := FileSet([path], meta.nlink);
        var s1 := s.(arena := s.arena + [f], byInode := s.byInode[id := h], owner := s.owner + [fp]);
        if fp !in s.byContent then
          Run(s1.(byContent := s.byContent[fp := [h]], stats := stats), Ok)
        else
          var b := s.byContent[fp] + [h];
          BucketsJoin(s.arena, s.byContent, s.owner, f, fp);
          DedupeStep(s1.(byContent := s.byContent[fp := b], stats := stats.(dupes := stats.dupes + 1)), b, settings.dryRun, fs)
  }

  /** `add` queues a directory. */
  lemma AddStepQueued(s: State, path: Path, meta: Metadata, settings: Settings, fs: FileSystem)
    requires Inv(s) && meta.kind == Dir
    ensures AddStep(s, path, meta, settings, fs) == Run(s.(toScan := s.toScan + [QueueItem(OrderKey(meta.ino), path)]), Ok)
  {
  }

  /** `add` counts a skipped entry. */
  lemma AddStepSkipped(s: State, path: Path, meta: Metadata, settings: Settings, fs: FileSystem)
    requires Inv(s) && RouteOf(meta, settings.ignoreSmall) == Skipped
    ensures AddStep(s, path, meta, settings, fs) == Run(s.(stats := s.stats.(skipped := s.stats.skipped + 1)), Ok)
  {
  }

  /** `add` appends a hard link of a known inode to its FileSet. */
  lemma AddStepHardlink(s: State, path: Path, meta: Metadata, settings: Settings, fs: FileSystem)
    requires Inv(s) && RouteOf(meta, settings.ignoreSmall) == Admitted && InodeId(meta.dev, meta.ino) in s.byInode
    ensures var h := s.byInode[InodeId(meta.dev, meta.ino)];
      var st := s.stats.(added := s.stats.added + 1);
      AddStep(s, path, meta, settings, fs) == Run(s.(arena := s.arena[h := s.arena[h].Push(path)], stats := st.(hardlinks := st.hardlinks + 1)), Ok)
  {
  }

  /** `add` files a new inode with new content as a FileSet of its own and a bucket of its own. */
  lemma AddStepUnique(s: State, path: Path, meta: Metadata, settings: Settings, fs: FileSystem)
    requires Inv(s) && RouteOf(meta, settings.ignoreSmall) == Admitted && InodeId(meta.dev, meta.ino) !in s.byInode
    requires meta.fingerprint !in s.byContent
    ensures var h := |s.arena|;
      AddStep(s, path, meta, settings, fs)
        == Run(s.(arena := s.arena + [FileSet([path], meta.nlink)], byInode := s.byInode[InodeId(meta.dev, meta.ino) := h],
                  owner := s.owner + [meta.fingerprint], byContent := s.byContent[meta.fingerprint := [h]],
                  stats := s.stats.(added := s.stats.added + 1)), Ok)
  {
  }

  /** `add` files a new inode whose content is known, then merges its bucket. */
  lemma AddStepDuplicate(s: State, path: Path, meta: Metadata, settings: Settings, fs: FileSystem)
    requires Inv(s) && RouteOf(meta, settings.ignoreSmall) == Admitted && InodeId(meta.dev, meta.ino) !in s.byInode
    requires meta.fingerprint in s.byContent
    ensures var h := |s.arena|;
      var fp := meta.fingerprint;
      var b := s.byContent[fp] + [h];
      var st := s.stats.(added := s.stats.added + 1);
      AddStep(s, path, meta, settings, fs)
        == DedupeStep(s.(arena := s.arena + [FileSet([path], meta.nlink)], byInode := s.byInode[InodeId(meta.dev, meta.ino) := h],
                         owner := s.owner + [fp], byContent := s.byContent[fp := b], stats := st.(dupes := st.dupes + 1)),
                      b, settings.dryRun, fs)
  {
  }

  /** The bucket a new FileSet joins holds distinct handles of the grown arena. */
  lemma JoinedBucket(s: State, path: Path, meta: Metadata)
    requires Inv(s) && meta.fingerprint in s.byContent
    ensures var b := s.byContent[meta.fingerprint] + [|s.arena|];
      HandlesIn(s.arena + [FileSet([path], meta.nlink)], b) && Distinct(b)
  {
    BucketsJoin(s.arena, s.byContent, s.owner, FileSet([path], meta.nlink), meta.fingerprint);
  }

  /**
   * `dedupe` over one bucket: the arena after the merge, the listener calls
   * it makes, and the paths it loses.
   */
  function DedupeStep(s: State, bucket: seq<Handle>, dryRun: bool, fs: FileSystem): Run
    requires HandlesIn(s.arena, bucket) && Distinct(bucket)
  {
    var r := Merge(s.arena, bucket, dryRun, fs);
    Run(s.(arena := r.arena, events := s.events + MergeEvents(s.arena, bucket, dryRun, fs), lost := s.lost + r.dropped), r.status)
  }

  /** A merge over an empty bucket panics and changes nothing. */
  lemma DedupeEmpty(s: State, dryRun: bool, fs: FileSystem)
    ensures DedupeStep(s, [], dryRun, fs) == Run(s, Panic(EmptyBucket))
  {
    AppendNothing(s.events);
    AppendNothing(s.lost);
  }

  /** A merge whose anchor has no path panics and changes nothing. */
  lemma DedupeNoSource(s: State, bucket: seq<Handle>, dryRun: bool, fs: FileSystem)
    requires HandlesIn(s.arena, bucket) && Distinct(bucket) && bucket != [] && !Ready(s.arena, bucket)
    ensures DedupeStep(s, bucket, dryRun, fs) == Run(s, Panic(AnchorWithoutPaths))
  {
    AppendNothing(s.events);
    AppendNothing(s.lost);
  }

  /** The merge's effect on the state, as the member-by-member drain computes it. */
  lemma DedupeDrains(s: State, bucket: seq<Handle>, dryRun: bool, fs: FileSystem, k: nat, source: Path)
    requires Distinct(bucket) && Ready(s.arena, bucket)
    requires k == AnchorOf(s.arena, bucket) && source == Source(s.arena, bucket)
    ensures var d := Drain(s.arena, bucket, k, source, dryRun, fs, |bucket|);
      DedupeStep(s, bucket, dryRun, fs)
        == Run(s.(arena := d.arena, events := s.events + Events(d.moved, source, dryRun), lost := s.lost + d.dropped), d.status)
  {
    DrainIsMerge(s.arena, bucket, dryRun, fs);
  }

  /** A merge over one of the content buckets keeps the invariant. */
  lemma DedupeKeepsInv(s: State, fp: Fingerprint, dryRun: bool, fs: FileSystem)
    requires Inv(s) && fp in s.byContent
    ensures Inv(DedupeStep(s, s.byContent[fp], dryRun, fs).state)
  {
    BucketsMerge(s.arena, s.byContent, s.owner, fp, dryRun, fs);
    MergeConserves(s.arena, s.byContent[fp], dryRun, fs);
  }

  lemma AddHardlinkKeepsInv(s: State, path: Path, meta: Metadata, settings: Settings, fs: FileSystem)
    requires Inv(s) && RouteOf(meta, settings.ignoreSmall) == Admitted && InodeId(meta.dev, meta.ino) in s.byInode
    ensures Inv(AddStep(s, path, meta, settings, fs).state)
  {
    var h := s.byInode[InodeId(meta.dev, meta.ino)];
    BucketsPush(s.arena, s.byContent, s.owner, h, path);
    TotalPathsUpdate(s.arena, h, s.arena[h].Push(path));
  }

  lemma AddUniqueKeepsInv(s: State, path: Path, meta: Metadata, settings: Settings, fs: FileSystem)
    requires Inv(s) && RouteOf(meta, settings.ignoreSmall) == Admitted && InodeId(meta.dev, meta.ino) !in s.byInode
    requires meta.fingerprint !in s.byContent
    ensures Inv(AddStep(s, path, meta, settings, fs).state)
  {
    var f := FileSet([path], meta.nlink);
    var fp := meta.fingerprint;
    InodesNew(s.arena, s.byInode, InodeId(meta.dev, meta.ino), f);
    BucketsNew(s.arena, s.byContent, s.owner, f, fp);
    TotalPathsAppend(s.arena, f);
    assert s.byContent[fp := [|s.arena|]].Keys == s.byContent.Keys + {fp};
  }

  lemma AddDuplicateKeepsInv(s: State, path: Path, meta: Metadata, settings: Settings, fs: FileSystem)
    requires Inv(s) && RouteOf(meta, settings.ignoreSmall) == Admitted && InodeId(meta.dev, meta.ino) !in s.byInode
    requires meta.fingerprint in s.byContent
    ensures Inv(AddStep(s, path, meta, settings, fs).state)
  {
    var id := InodeId(meta.dev, meta.ino);
    var f := FileSet([path], meta.nlink);
    var fp := meta.fingerprint;
    var b := s.byContent[fp] + [|s.arena|];
    var stats := s.stats.(added := s.stats.added + 1);
    var s1 := s.(arena := s.arena + [f], byInode := s.byInode[id := |s.arena|], owner := s.owner + [fp],
                 byContent := s.byContent[fp := b], stats := stats.(dupes := stats.dupes + 1));
    assert Inv(s1) by {
      InodesNew(s.arena, s.byInode, id, f);
      BucketsJoin(s.arena, s.byContent, s.owner, f, fp);
      TotalPathsAppend(s.arena, f);
      assert s1.byContent.Keys == s.byContent.Keys;
    }
    DedupeKeepsInv(s1, fp, settings.dryRun, fs);
  }

  /** `add` keeps the invariant. */
  lemma AddKeepsInv(s: State, path: Path, meta: Metadata, settings: Settings, fs: FileSystem)
    requires Inv(s)
    ensures Inv(AddStep(s, path, meta, settings, fs).state)
  {
    if RouteOf(meta, settings.ignoreSmall) == Admitted {
      if InodeId(meta.dev, meta.ino) in s.byInode {
        AddHardlinkKeepsInv(s, path, meta, settings, fs);
      } else if meta.fingerprint !in s.byContent {
        AddUniqueKeepsInv(s, path, meta, settings, fs);
      } else {
        AddDuplicateKeepsInv(s, path, meta, settings, fs);
      }
    }
  }

  /** Outcomes `add` can have: the two panics a bucket could cause never happen. */
  predicate AddOutcome(st: Status)
  {
    || st.Ok?
    || (st.Err? && (st.error.LinkFailed? || st.error.RenameFailed?))
    || (st.Panic? && st.abort.SourceIsDest?)
  }

  /**
   * `add` succeeds, fails only with the I/O error of a hard link or rename
   * made by the merge, or panics only when a duplicate path is the link
   * source itself; a dry run never fails.
   */
  lemma AddStatus(s: State, path: Path, meta: Metadata, settings: Settings, fs: FileSystem)
    requires Inv(s)
    ensures AddOutcome(AddStep(s, path, meta, settings, fs).status)
    ensures settings.dryRun ==> !AddStep(s, path, meta, settings, fs).status.Err?
  {
    var id := InodeId(meta.dev, meta.ino);
    var fp := meta.fingerprint;
    if RouteOf(meta, settings.ignoreSmall) == Admitted && id !in s.byInode && fp in s.byContent {
      var f := FileSet([path], meta.nlink);
      var a := s.arena + [f];
      var b := s.byContent[fp] + [|s.arena|];
      assert Ready(a, b) && Distinct(b) by {
        JoinReady(s.arena, s.byContent[fp], f);
      }
      var st := Merge(a, b, settings.dryRun, fs).status;
      assert AddOutcome(st) by {
        MergeOutcomes(a, b, settings.dryRun, fs);
      }
      assert settings.dryRun ==> !st.Err? by {
        if settings.dryRun {
          DryRunNeverErrs(a, b, fs);
        }
      }
    }
  }

  /** `add` queues exactly the directory entries, with their order key, and nothing else. */
  lemma AddQueues(s: State, path: Path, meta: Metadata, settings: Settings, fs: FileSystem)
    requires Inv(s)
    ensures AddStep(s, path, meta, settings, fs).state.toScan == s.toScan + QueuedFor(Entry(path, Some(meta)))
  {
  }

  /**
   * Every non-directory entry is counted exactly once: as skipped when it is
   * a symlink or another non-file, empty, or (with `ignoreSmall`) smaller
   * than one block, and as added otherwise; a directory is not counted.
   */
  lemma AddCounts(s: State, path: Path, meta: Metadata, settings: Settings, fs: FileSystem)
    requires Inv(s)
    ensures var t := AddStep(s, path, meta, settings, fs).state.stats;
      var skip := meta.kind != Dir && (meta.kind != Regular || meta.size == 0 || (settings.ignoreSmall && meta.size < meta.blksize));
      var admit := meta.kind == Regular && !skip;
      && t.skipped == s.stats.skipped + (if skip then 1 else 0)
      && t.added == s.stats.added + (if admit then 1 else 0)
      && t.added + t.skipped == s.stats.added + s.stats.skipped + (if meta.kind == Dir then 0 else 1)
  {
  }

  /** Ignoring small files only turns admitted files into skipped ones, and only files smaller than a block. */
  lemma IgnoreSmallOnlySkips(meta: Metadata)
    ensures RouteOf(meta, true) == Admitted ==> RouteOf(meta, false) == Admitted
    ensures RouteOf(meta, false) == Admitted && RouteOf(meta, true) != Admitted ==> meta.size < meta.blksize
  {
  }

  /**
   * The size filter on a regular file: it is skipped exactly when it is
   * empty or, with `ignoreSmall`, smaller than one block; an empty file is
   * always skipped and a file of exactly one block never is.
   */
  lemma SizeFilter(meta: Metadata, ignoreSmall: bool)
    requires meta.kind == Regular
    ensures RouteOf(meta, ignoreSmall) == Skipped <==> meta.size == 0 || (ignoreSmall && meta.size < meta.blksize)
    ensures RouteOf(meta, ignoreSmall) != ToQueue
    ensures meta.size == 0 ==> RouteOf(meta, ignoreSmall) == Skipped
    ensures 0 < meta.size == meta.blksize ==> RouteOf(meta, ignoreSmall) == Admitted
  {
  }

  /** The loop of `scan_dir` over the entries read: unreadable entries are passed over, an entry whose metadata cannot be read ends the walk of the directory with that error, an error of `add` is dropped and a panic of `add` ends it. */
  function ScanEntries(s: State, cs: seq<Child>, settings: Settings, fs: FileSystem): Run
    requires Inv(s)
    decreases |cs|
  {
    if cs == [] then Run(s, Ok)
    else
      match cs[0]
      case Unreadable => ScanEntries(s, cs[1..], settings, fs)
      case Entry(p, None) => Run(s, Err(MetadataFailed(p)))
      case Entry(p, Some(m)) =>
        AddKeepsInv(s, p, m, settings, fs);
        var r := AddStep(s, p, m, settings, fs);
        if r.status.Panic? then r else ScanEntries(r.state, cs[1..], settings, fs)
  }

  /** `scan_dir`: a directory that cannot be listed is an error. */
  function VisitStep(s: State, dir: Path, settings: Settings, fs: FileSystem): Run
    requires Inv(s)
  {
    if dir !in fs.listing then Run(s, Err(ReadDirFailed(dir)))
    else ScanEntries(s, fs.listing[dir], settings, fs)
  }

  lemma {:induction false} ScanKeepsInv(s: State, cs: seq<Child>, settings: Settings, fs: FileSystem)
    requires Inv(s)
    ensures Inv(ScanEntries(s, cs, settings, fs).state)
    decreases |cs|
  {
    if cs != [] {
      match cs[0]
      case Unreadable => ScanKeepsInv(s, cs[1..], settings, fs);
      case Entry(p, None) =>
      case Entry(p, Some(m)) =>
        AddKeepsInv(s, p, m, settings, fs);
        ScanKeepsInv(AddStep(s, p, m, settings, fs).state, cs[1..], settings, fs);
    }
  }

  /** A directory walked to its end queues exactly the directories it lists, in order. */
  lemma {:induction false} ScanQueues(s: State, cs: seq<Child>, settings: Settings, fs: FileSystem)
    requires Inv(s)
    ensures var r := ScanEntries(s, cs, settings, fs);
      r.status.Ok? ==> r.state.toScan == s.toScan + Queued(cs)
    decreases |cs|
  {
    if cs != [] {
      match cs[0]
      case Unreadable => ScanQueues(s, cs[1..], settings, fs);
      case Entry(p, None) =>
      case Entry(p, Some(m)) =>
        AddKeepsInv(s, p, m, settings, fs);
        AddQueues(s, p, m, settings, fs);
        ScanQueues(AddStep(s, p, m, settings, fs).state, cs[1..], settings, fs);
        AppendAssoc(s.toScan, QueuedFor(cs[0]), Queued(cs[1..]));
    }
  }

  /** Outcomes of walking one directory: the merges' I/O errors are dropped, so only a listing or metadata error, or the self-link panic, remains. */
  predicate WalkOutcome(st: Status)
  {
    || st.Ok?
    || (st.Err? && (st.error.ReadDirFailed? || st.error.MetadataFailed?))
    || (st.Panic? && st.abort.SourceIsDest?)
  }

  lemma {:induction false} ScanStatus(s: State, cs: seq<Child>, settings: Settings, fs: FileSystem)
    requires Inv(s)
    ensures WalkOutcome(ScanEntries(s, cs, settings, fs).status)
    decreases |cs|
  {
    if cs != [] {
      match cs[0]
      case Unreadable => ScanStatus(s, cs[1..], settings, fs);
      case Entry(p, None) =>
      case Entry(p, Some(m)) =>
        AddKeepsInv(s, p, m, settings, fs);
        AddStatus(s, p, m, settings, fs);
        ScanStatus(AddStep(s, p, m, settings, fs).state, cs[1..], settings, fs);
    }
  }

  /**
   * `flush`: pop the directory with the largest key (the first such one
   * when several share it), walk it, and go on until the queue is empty or
   * a walk fails.
   */
  ghost function FlushRun(s: State, settings: Settings, fs: FileSystem): Run
    requires Inv(s) && fs.WellFormed()
    decreases QueueWeight(fs, s.toScan)
  {
    if s.toScan == [] then Run(s, Ok)
    else
      var at := FirstMax(s.toScan);
      var dir := s.toScan[at].path;
      var s1 := s.(toScan := s.toScan[..at] + s.toScan[at + 1..]);
      var r := VisitStep(s1, dir, settings, fs);
      if !r.status.Ok? then r
      else
        ScanKeepsInv(s1, fs.listing[dir], settings, fs);
        ScanQueues(s1, fs.listing[dir], settings, fs);
        VisitLowersWeight(fs, s.toScan, at);
        FlushRun(r.state, settings, fs)
  }

  /** `flush` keeps the invariant, empties the queue when it succeeds, and fails only as a directory walk does. */
  lemma {:induction false} FlushSpec(s: State, settings: Settings, fs: FileSystem)
    requires Inv(s) && fs.WellFormed()
    ensures var r := FlushRun(s, settings, fs);
      && Inv(r.state)
      && (r.status.Ok? ==> r.state.toScan == [])
      && WalkOutcome(r.status)
    decreases QueueWeight(fs, s.toScan)
  {
    if s.toScan != [] {
      var at := FirstMax(s.toScan);
      var dir := s.toScan[at].path;
      var s1 := s.(toScan := s.toScan[..at] + s.toScan[at + 1..]);
      if dir in fs.listing {
        ScanKeepsInv(s1, fs.listing[dir], settings, fs);
        ScanStatus(s1, fs.listing[dir], settings, fs);
        var r := VisitStep(s1, dir, settings, fs);
        if r.status.Ok? {
          ScanQueues(s1, fs.listing[dir], settings, fs);
          VisitLowersWeight(fs, s.toScan, at);
          FlushSpec(r.state, settings, fs);
        }
      }
    }
  }

  /** `enqueue`: canonicalize the path, read its metadata without following a symlink, and add it. */
  function EnqueueStep(s: State, path: Path, settings: Settings, fs: FileSystem): Run
    requires Inv(s)
  {
    if path !in fs.canonical then Run(s, Err(CanonicalizeFailed(path)))
    else
      var c := fs.canonical[path];
      if c !in fs.meta then Run(s, Err(MetadataFailed(c)))
      else AddStep(s, c, fs.meta[c], settings, fs)
  }

  /** `scan`: enqueue, then flush. */
  ghost function ScanRun(s: State, path: Path, settings: Settings, fs: FileSystem): Run
    requires Inv(s) && fs.WellFormed()
  {
    var r := EnqueueStep(s, path, settings, fs);
    if !r.status.Ok? then r
    else
      EnqueueKeepsInv(s, path, settings, fs);
      FlushRun(r.state, settings, fs)
  }

  lemma EnqueueKeepsInv(s: State, path: Path, settings: Settings, fs: FileSystem)
    requires Inv(s)
    ensures Inv(EnqueueStep(s, path, settings, fs).state)
  {
    if path in fs.canonical && fs.canonical[path] in fs.meta {
      AddKeepsInv(s, fs.canonical[path], fs.meta[fs.canonical[path]], settings, fs);
    }
  }

  /**
   * `scan` keeps the invariant and, when it succeeds, leaves no directory
   * queued; it fails on the root path itself, with the merge errors of the
   * root's own `add`, or as the walk does.
   */
  lemma ScanSpec(s: State, path: Path, settings: Settings, fs: FileSystem)
    requires Inv(s) && fs.WellFormed()
    ensures var r := ScanRun(s, path, settings, fs);
      && Inv(r.state)
      && (r.status.Ok? ==> r.state.toScan == [])
      && (r.status.Err? ==>
            r.status.error.CanonicalizeFailed? || r.status.error.MetadataFailed? || r.status.error.LinkFailed?
            || r.status.error.RenameFailed? || r.status.error.ReadDirFailed?)
      && (r.status.Panic? ==> r.status.abort.SourceIsDest?)
  {
    EnqueueKeepsInv(s, path, settings, fs);
    var e := EnqueueStep(s, path, settings, fs);
    if path in fs.canonical && fs.canonical[path] in fs.meta {
      AddStatus(s, fs.canonical[path], fs.meta[fs.canonical[path]], settings, fs);
    }
    if e.status.Ok? {
      FlushSpec(e.state, settings, fs);
    }
  }
}

/**
 * The `Scanner` object: its fields, and each of its methods proved to change
 * them exactly as the matching function of `ScanState` says.
 */
module Scanner {
  import opened Types
  import opened Ordering
  import opened Merging
  import opened Index
  import opened Traversal
  import opened ScanState

  class Scanner {
    var settings: Settings
    /** The FileSets, addressed by handle (what the indices share through `Rc<Mutex<FileSet>>`). */
    var arena: seq<FileSet>
    var byInode: map<InodeId, Handle>
    var byContent: map<Fingerprint, seq<Handle>>
    /** The directory queue; a pop takes an item with the largest key. */
    var toScan: seq<QueueItem>
    var stats: Stats
    /** Calls made on the scan listener, in order. */
    var events: seq<Event>
    ghost var owner: seq<Fingerprint>
    ghost var lost: seq<Path>

    ghost function Snap(): State
      reads this
    {
      State(arena, byInode, byContent, toScan, stats, events, owner, lost)
    }

    ghost predicate Valid()
      reads this
    {
      Inv(Snap())
    }

    /** `Scanner::new`: small files are ignored, links are made, and nothing is known yet. */
    constructor()
      ensures Valid()
      ensures settings == Settings(true, false)
      ensures Snap() == Initial()
    {
      settings := Settings(true, false);
      arena := [];
      byInode := map[];
      byContent := map[];
      toScan := [];
      stats := Stats(0, 0, 0, 0);
      events := [];
      owner := [];
      lost := [];
    }

    /** `scan`: enqueue the root, then flush the queue; the first error ends it. */
    method Scan(path: Path, fs: FileSystem) returns (status: Status)
      requires Valid() && fs.WellFormed()
      modifies this`arena, this`byInode, this`byContent, this`toScan, this`stats, this`events, this`owner, this`lost
      ensures Run(Snap(), status) == ScanRun(old(Snap()), path, settings, fs)
      ensures Valid()
    {
      status := Enqueue(path, fs);
      if !status.Ok? {
        return;
      }
      status := Flush(fs);
    }

    /** `enqueue`: canonicalize the path, read its own metadata (a symlink is not followed) and add it. */
    method Enqueue(path: Path, fs: FileSystem) returns (status: Status)
      requires Valid()
      modifies this`arena, this`byInode, this`byContent, this`toScan, this`stats, this`events, this`owner, this`lost
      ensures Run(Snap(), status) == EnqueueStep(old(Snap()), path, settings, fs)
      ensures Valid()
    {
      if path !in fs.canonical {
        return Err(CanonicalizeFailed(path));
      }
      var c := fs.canonical[path];
      if c !in fs.meta {
        return Err(MetadataFailed(c));
      }
      status := Add(c, fs.meta[c], fs);
    }

    /** `flush`: pop and walk directories until the queue is empty; a failed walk ends it with its error. */
    method Flush(fs: FileSystem) returns (status: Status)
      requires Valid() && fs.WellFormed()
      modifies this`arena, this`byInode, this`byContent, this`toScan, this`stats, this`events, this`owner, this`lost
      ensures Run(Snap(), status) == FlushRun(old(Snap()), settings, fs)
      ensures Valid()
    {
      ghost var s0 := Snap();
      while toScan != []
        invariant Valid()
        invariant FlushRun(Snap(), settings, fs) == FlushRun(s0, settings, fs)
        decreases QueueWeight(fs, toScan)
      {
        status := FlushOne(fs);
        if !status.Ok? {
          return;
        }
      }
      status := Ok;
    }

    /** One turn of `flush`: `to_scan.pop()` takes the first item with the largest key, and its directory is walked. */
    method FlushOne(fs: FileSystem) returns (status: Status)
      requires Valid() && fs.WellFormed() && toScan != []
      modifies this`arena, this`byInode, this`byContent, this`toScan, this`stats, this`events, this`owner, this`lost
      ensures Valid()
      ensures !status.Ok? ==> Run(Snap(), status) == FlushRun(old(Snap()), settings, fs)
      ensures status.Ok? ==> FlushRun(Snap(), settings, fs) == FlushRun(old(Snap()), settings, fs)
      ensures status.Ok? ==> QueueWeight(fs, toScan) < old(QueueWeight(fs, toScan))
    {
      ghost var q := toScan;
      var at := FirstMax(toScan);
      var dir := toScan[at].path;
      toScan := toScan[..at] + toScan[at + 1..];
      ghost var s1 := Snap();
      status := ScanDir(dir, fs);
      if status.Ok? {
        ScanQueues(s1, fs.listing[dir], settings, fs);
        VisitLowersWeight(fs, q, at);
      }
    }

    /**
     * `scan_dir`: read the directory and add each readable entry; an entry
     * whose metadata cannot be read ends the walk with that error, an error
     * of `add` is only reported and a panic of `add` propagates.
     */
    method ScanDir(dir: Path, fs: FileSystem) returns (status: Status)
      requires Valid()
      modifies this`arena, this`byInode, this`byContent, this`toScan, this`stats, this`events, this`owner, this`lost
      ensures Run(Snap(), status) == VisitStep(old(Snap()), dir, settings, fs)
      ensures Valid()
    {
      if dir !in fs.listing {
        return Err(ReadDirFailed(dir));
      }
      var cs := fs.listing[dir];
      ghost var s0 := Snap();
      var j := 0;
      while j < |cs|
        invariant j <= |cs| && Valid()
        invariant ScanEntries(Snap(), cs[j..], settings, fs) == ScanEntries(s0, cs, settings, fs)
      {
        var stop;
        assert cs[j..] == [cs[j]] + cs[j + 1..];
        status, stop := ScanEntry(cs[j], cs[j + 1..], fs);
        if stop {
          return;
        }
        j := j + 1;
      }
      assert cs[j..] == [];
      status := Ok;
    }

    /** One entry of the `scan_dir` loop; `stop` tells whether it ends the walk. */
    method ScanEntry(c: Child, ghost rest: seq<Child>, fs: FileSystem) returns (status: Status, stop: bool)
      requires Valid()
      modifies this`arena, this`byInode, this`byContent, this`toScan, this`stats, this`events, this`owner, this`lost
      ensures Valid()
      ensures stop ==> Run(Snap(), status) == ScanEntries(old(Snap()), [c] + rest, settings, fs)
      ensures !stop ==> ScanEntries(Snap(), rest, settings, fs) == ScanEntries(old(Snap()), [c] + rest, settings, fs)
    {
      assert ([c] + rest)[0] == c && ([c] + rest)[1..] == rest;
      match c
      case Unreadable =>
        return Ok, false;
      case Entry(p, None) =>
        return Err(MetadataFailed(p)), true;
      case Entry(p, Some(m)) =>
        status := Add(p, m, fs);
        stop := status.Panic?;
    }

    /**
     * `dupes`: a copy of every FileSet, one per inode entry, in the index's
     * iteration order; `handles` names the FileSet each copy was taken from.
     */
    method Dupes() returns (sets: seq<FileSet>, ghost handles: seq<Handle>)
      requires Valid()
      ensures |sets| == |handles| == |arena|
      ensures Distinct(handles)
      ensures forall t :: 0 <= t < |sets| ==> handles[t] < |arena| && sets[t] == arena[handles[t]]
    {
      var keys := byInode.Keys;
      ghost var ids: seq<InodeId> := [];
      sets, handles := [], [];
      while keys != {}
        invariant keys <= byInode.Keys
        invariant |keys| + |sets| == |byInode.Keys|
        invariant |sets| == |handles| == |ids|
        invariant Distinct(handles)
        invariant forall t :: 0 <= t < |ids| ==> ids[t] in byInode && ids[t] !in keys && handles[t] == byInode[ids[t]]
        invariant forall t :: 0 <= t < |sets| ==> handles[t] < |arena| && sets[t] == arena[handles[t]]
        decreases |keys|
      {
        var id :| id in keys;
        var h := byInode[id];
        sets := sets + [arena[h]];
        handles := handles + [h];
        ids := ids + [id];
        keys := keys - {id};
      }
    }

    /** `add`: files one entry under its inode and its content, merging a duplicate into its bucket. */
    method Add(path: Path, meta: Metadata, fs: FileSystem) returns (status: Status)
      requires Valid()
      modifies this`arena, this`byInode, this`byContent, this`toScan, this`stats, this`events, this`owner, this`lost
      ensures Run(Snap(), status) == AddStep(old(Snap()), path, meta, settings, fs)
      ensures Valid()
    {
      AddKeepsInv(Snap(), path, meta, settings, fs);
      status := Classify(path, meta, fs);
    }

    /** The body of `add`: directories are queued, other non-files and small files skipped, regular files admitted. */
    method Classify(path: Path, meta: Metadata, fs: FileSystem) returns (status: Status)
      requires Valid()
      modifies this`arena, this`byInode, this`byContent, this`toScan, this`stats, this`events, this`owner, this`lost
      ensures Run(Snap(), status) == AddStep(old(Snap()), path, meta, settings, fs)
    {
      ghost var s0 := Snap();
      if meta.kind == Dir {
        AddStepQueued(s0, path, meta, settings, fs);
        toScan := toScan + [QueueItem(OrderKey(meta.ino), path)];
        return Ok;
      } else if meta.kind == Symlink {
        AddStepSkipped(s0, path, meta, settings, fs);
        stats := stats.(skipped := stats.skipped + 1);
        return Ok;
      } else if meta.kind != Regular {
        AddStepSkipped(s0, path, meta, settings, fs);
        stats := stats.(skipped := stats.skipped + 1);
        return Ok;
      }
      if meta.size == 0 || (settings.ignoreSmall && meta.size < meta.blksize) {
        AddStepSkipped(s0, path, meta, settings, fs);
        stats := stats.(skipped := stats.skipped + 1);
        return Ok;
      }
      stats := stats.(added := stats.added + 1);
      status := Admit(s0, path, meta, fs);
    }

    /** The part of `add` after a regular file has been counted as added: the inode tier, then the content tier. */
    method Admit(ghost s0: State, path: Path, meta: Metadata, fs: FileSystem) returns (status: Status)
      requires Inv(s0) && RouteOf(meta, settings.ignoreSmall) == Admitted
      requires Snap() == s0.(stats := s0.stats.(added := s0.stats.added + 1))
      modifies this`arena, this`byInode, this`byContent, this`stats, this`owner, this`events, this`lost
      ensures Run(Snap(), status) == AddStep(s0, path, meta, settings, fs)
    {
      var id := InodeId(meta.dev, meta.ino);
      if id in byInode {
        AddStepHardlink(s0, path, meta, settings, fs);
        stats := stats.(hardlinks := stats.hardlinks + 1);
        var h := byInode[id];
        arena := arena[h := arena[h].Push(path)];
        return Ok;
      }
      var fp := meta.fingerprint;
      if fp !in byContent {
        AddStepUnique(s0, path, meta, settings, fs);
      } else {
        AddStepDuplicate(s0, path, meta, settings, fs);
        JoinedBucket(s0, path, meta);
      }
      status := AdmitNew(path, meta, settings.dryRun, fs);
    }

    /** A file whose inode is new: a FileSet of its own, then its content bucket, merged when it already existed. */
    method AdmitNew(path: Path, meta: Metadata, dryRun: bool, fs: FileSystem) returns (status: Status)
      requires var b := if meta.fingerprint in byContent then byContent[meta.fingerprint] + [|arena|] else [];
        HandlesIn(arena + [FileSet([path], meta.nlink)], b) && Distinct(b)
      modifies this`arena, this`byInode, this`byContent, this`stats, this`owner, this`events, this`lost
      ensures var h := |old(arena)|;
        var fp := meta.fingerprint;
        var s1 := old(Snap()).(arena := old(arena) + [FileSet([path], meta.nlink)], byInode := old(byInode)[InodeId(meta.dev, meta.ino) := h],
                               owner := old(owner) + [fp]);
        if fp !in old(byContent) then Run(Snap(), status) == Run(s1.(byContent := old(byContent)[fp := [h]]), Ok)
        else
          var b := old(byContent)[fp] + [h];
          Run(Snap(), status) == DedupeStep(s1.(byContent := old(byContent)[fp := b], stats := old(stats).(dupes := old(stats).dupes + 1)), b, dryRun, fs)
    {
      var id := InodeId(meta.dev, meta.ino);
      var h := |arena|;
      var fileset := FileSet([path], meta.nlink);
      var fp := meta.fingerprint;
      arena := arena + [fileset];
      byInode := byInode[id := h];
      owner := owner + [fp];
      if fp !in byContent {
        byContent := byContent[fp := [h]];
        return Ok;
      }
      status := Duplicate(fp, h, dryRun, fs);
    }

    /** A new FileSet whose content is already known: it joins that bucket, counted as a duplicate, and the bucket is merged. */
    method Duplicate(fp: Fingerprint, h: Handle, dryRun: bool, fs: FileSystem) returns (status: Status)
      requires fp in byContent && HandlesIn(arena, byContent[fp] + [h]) && Distinct(byContent[fp] + [h])
      modifies this`arena, this`byContent, this`stats, this`events, this`lost
      ensures var b := old(byContent)[fp] + [h];
        Run(Snap(), status) == DedupeStep(old(Snap()).(byContent := old(byContent)[fp := b], stats := old(stats).(dupes := old(stats).dupes + 1)), b, dryRun, fs)
    {
      stats := stats.(dupes := stats.dupes + 1);
      byContent := byContent[fp := byContent[fp] + [h]];
      status := Dedupe(byContent[fp], dryRun, fs);
    }

    /**
     * `dedupe`: drains every member of the bucket but the anchor into the
     * anchor, linking each path to the anchor's first path; the first
     * failure stops it.
     */
    method Dedupe(bucket: seq<Handle>, dryRun: bool, fs: FileSystem) returns (status: Status)
      requires HandlesIn(arena, bucket) && Distinct(bucket)
      modifies this`arena, this`events, this`lost
      ensures Run(Snap(), status) == DedupeStep(old(Snap()), bucket, dryRun, fs)
    {
      ghost var s0 := Snap();
      if bucket == [] {
        DedupeEmpty(s0, dryRun, fs);
        return Panic(EmptyBucket);
      }
      var k := AnchorOf(arena, bucket);
      var anchor := bucket[k];
      if arena[anchor].paths == [] {
        DedupeNoSource(s0, bucket, dryRun, fs);
        return Panic(AnchorWithoutPaths);
      }
      var source := arena[anchor].paths[0];
      assert Ready(s0.arena, bucket) && source == Source(s0.arena, bucket);
      DedupeDrains(s0, bucket, dryRun, fs, k, source);
      status := DrainMembers(bucket, k, source, dryRun, fs);
    }

    /**
     * The outer loop of `dedupe`: the members in bucket order, passing over
     * the anchor, each drained into the anchor until one fails.
     */
    method DrainMembers(bucket: seq<Handle>, k: nat, source: Path, dryRun: bool, fs: FileSystem) returns (status: Status)
      requires HandlesIn(arena, bucket) && Distinct(bucket) && k < |bucket|
      modifies this`arena, this`events, this`lost
      ensures var d := Drain(old(arena), bucket, k, source, dryRun, fs, |bucket|);
        && arena == d.arena
        && events == old(events) + Events(d.moved, source, dryRun)
        && lost == old(lost) + d.dropped
        && status == d.status
    {
      ghost var arena0 := arena;
      AppendNothing(events);
      AppendNothing(lost);
      status := Ok;
      var i := 0;
      while i < |bucket|
        invariant i <= |bucket|
        invariant var d := Drain(arena0, bucket, k, source, dryRun, fs, i);
          && arena == d.arena
          && events == old(events) + Events(d.moved, source, dryRun)
          && lost == old(lost) + d.dropped
          && status == d.status == Ok
      {
        status := DrainNext(arena0, old(events), old(lost), bucket, k, i, source, dryRun, fs);
        if !status.Ok? {
          return;
        }
        i := i + 1;
      }
    }

    /** One turn of the outer loop: the anchor is passed over, any other member drained into it. */
    method DrainNext(ghost arena0: seq<FileSet>, ghost events0: seq<Event>, ghost lost0: seq<Path>,
                     bucket: seq<Handle>, k: nat, i: nat, source: Path, dryRun: bool, fs: FileSystem)
      returns (status: Status)
      requires HandlesIn(arena0, bucket) && Distinct(bucket) && k < |bucket| && i < |bucket|
      requires var d := Drain(arena0, bucket, k, source, dryRun, fs, i);
        && arena == d.arena
        && events == events0 + Events(d.moved, source, dryRun)
        && lost == lost0 + d.dropped
        && d.status == Ok
      modifies this`arena, this`events, this`lost
      ensures var d := Drain(arena0, bucket, k, source, dryRun, fs, i + 1);
        && arena == d.arena
        && events == events0 + Events(d.moved, source, dryRun)
        && lost == lost0 + d.dropped
        && status == d.status
      ensures !status.Ok? ==> Drain(arena0, bucket, k, source, dryRun, fs, |bucket|) == Drain(arena0, bucket, k, source, dryRun, fs, i + 1)
    {
      status := Ok;
      if i != k {
        ghost var d := Drain(arena0, bucket, k, source, dryRun, fs, i);
        ghost var e := DrainOne(arena, bucket[i], bucket[k], source, dryRun, fs);
        status := DrainMember(bucket[i], bucket[k], source, dryRun, fs);
        EventsConcat(d.moved, e.moved, source, dryRun);
        AppendAssoc(events0, Events(d.moved, source, dryRun), Events(e.moved, source, dryRun));
        AppendAssoc(lost0, d.dropped, e.dropped);
        if !status.Ok? {
          DrainSticks(arena0, bucket, k, source, dryRun, fs, i + 1);
        }
      }
    }

    /**
     * The inner loop of `dedupe` over one member: `paths.drain(..)` empties
     * member `h`, and each of its paths in turn is linked and pushed onto
     * the anchor's paths until one fails; the paths not reached are dropped
     * with the drain.
     */
    method DrainMember(h: Handle, anchor: Handle, source: Path, dryRun: bool, fs: FileSystem) returns (status: Status)
      requires h < |arena| && anchor < |arena| && h != anchor
      modifies this`arena, this`events, this`lost
      ensures var e := DrainOne(old(arena), h, anchor, source, dryRun, fs);
        && arena == e.arena
        && events == old(events) + Events(e.moved, source, dryRun)
        && lost == old(lost) + e.dropped
        && status == e.status
    {
      var ps := arena[h].paths;
      arena := arena[h := arena[h].(paths := [])];
      ghost var t := arena;
      AppendNothing(t[anchor].paths);
      AppendNothing(events);
      var j := 0;
      while j < |ps|
        invariant j <= |ps|
        invariant AllPass(ps[..j], source, dryRun, fs)
        invariant arena == t[anchor := t[anchor].(paths := t[anchor].paths + ps[..j])]
        invariant events == old(events) + Events(ps[..j], source, dryRun)
        invariant lost == old(lost)
      {
        var dest := ps[j];
        status := Link(dest, source, dryRun, fs);
        if !status.Ok? {
          lost := lost + ps[j..];
          MovedFirst(ps, j, source, dryRun, fs);
          return;
        }
        ghost var a0 := arena;
        arena := arena[anchor := arena[anchor].Push(dest)];
        assert ps[..j + 1] == ps[..j] + [dest];
        UpdateTwice(t, anchor, a0[anchor], arena[anchor]);
        AppendAssoc(t[anchor].paths, ps[..j], [dest]);
        EventsConcat(ps[..j], [dest], source, dryRun);
        AppendAssoc(old(events), Events(ps[..j], source, dryRun), Events([dest], source, dryRun));
        j := j + 1;
      }
      MovedFirst(ps, |ps|, source, dryRun, fs);
      assert ps[..|ps|] == ps && ps[|ps|..] == [];
      AppendNothing(lost);
      status := Ok;
    }

    /**
     * One iteration of the drain: `assert_ne!` on the two paths, then either
     * the dry run's `duplicate_found`, or hard_link to the temporary name,
     * rename onto the duplicate and `hardlinked`.
     */
    method Link(dest: Path, source: Path, dryRun: bool, fs: FileSystem) returns (status: Status)
      modifies this`events
      ensures status == Step(dest, source, dryRun, fs)
      ensures status.Ok? ==> events == old(events) + [EventFor(dest, source, dryRun)]
      ensures !status.Ok? ==> events == old(events)
    {
      if dest == source {
        return Panic(SourceIsDest(dest));
      }
      if dryRun {
        events := events + [DuplicateFound(dest, source)];
        return Ok;
      }
      if dest in fs.linkFails {
        return Err(LinkFailed(dest));
      }
      if dest in fs.renameFails {
        return Err(RenameFailed(dest));
      }
      events := events + [Hardlinked(dest, source)];
      return Ok;
    }
  }
}

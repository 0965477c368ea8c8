/**
 * The scanner's two indices over the FileSet arena: `by_inode` (one FileSet
 * per physical file) and `by_content` (buckets of FileSets with equal
 * content), with the invariants that keep every `dedupe` call on a bucket
 * free of the two panics a bucket can cause, and their preservation by each
 * update `add` makes.
 */
module Index {
  import opened Types
  import opened Merging

  /** Every inode entry names a FileSet, no two entries name the same one, and there is one entry per FileSet. */
  predicate InodesIndexed(arena: seq<FileSet>, byInode: map<InodeId, Handle>)
  {
    && (forall id :: id in byInode ==> byInode[id] < |arena|)
    && (forall id, id' :: id in byInode && id' in byInode && id != id' ==> byInode[id] != byInode[id'])
    && |byInode.Keys| == |arena|
  }

  /**
   * Every content bucket is a non-empty list of distinct handles whose anchor
   * holds a path, and `owner` names the one bucket each FileSet belongs to.
   */
  predicate Buckets(arena: seq<FileSet>, byContent: map<Fingerprint, seq<Handle>>, owner: seq<Fingerprint>)
  {
    && |owner| == |arena|
    && forall fp :: fp in byContent ==>
         && Ready(arena, byContent[fp])
         && Distinct(byContent[fp])
         && (forall t :: 0 <= t < |byContent[fp]| ==> owner[byContent[fp][t]] == fp)
  }

  /** Link counts read through a bucket agree when the members' link counts do. */
  lemma LinksAgree(a: seq<FileSet>, a2: seq<FileSet>, b: seq<Handle>)
    requires HandlesIn(a, b) && HandlesIn(a2, b)
    requires forall t :: 0 <= t < |b| ==> a2[b[t]].links == a[b[t]].links
    ensures LinksOf(a2, b) == LinksOf(a, b)
  {
  }

  /** A new inode entry for a new FileSet keeps the inode index whole. */
  lemma InodesNew(arena: seq<FileSet>, byInode: map<InodeId, Handle>, id: InodeId, f: FileSet)
    requires InodesIndexed(arena, byInode) && id !in byInode
    ensures InodesIndexed(arena + [f], byInode[id := |arena|])
  {
    assert byInode[id := |arena|].Keys == byInode.Keys + {id};
  }

  /** Adding a hard link's path to a FileSet keeps every bucket ready: no link count changes and no path list shrinks. */
  lemma BucketsPush(arena: seq<FileSet>, byContent: map<Fingerprint, seq<Handle>>, owner: seq<Fingerprint>, h: Handle, p: Path)
    requires Buckets(arena, byContent, owner) && h < |arena|
    ensures Buckets(arena[h := arena[h].Push(p)], byContent, owner)
  {
    var a2 := arena[h := arena[h].Push(p)];
    forall fp | fp in byContent
      ensures Ready(a2, byContent[fp])
    {
      LinksAgree(arena, a2, byContent[fp]);
    }
  }

  /** A new FileSet with a path, alone in a new bucket, keeps the content index whole. */
  lemma BucketsNew(arena: seq<FileSet>, byContent: map<Fingerprint, seq<Handle>>, owner: seq<Fingerprint>, f: FileSet, fp: Fingerprint)
    requires Buckets(arena, byContent, owner) && f.paths != [] && fp !in byContent
    ensures Buckets(arena + [f], byContent[fp := [|arena|]], owner + [fp])
  {
    var a2 := arena + [f];
    forall g | g in byContent
      ensures Ready(a2, byContent[g])
    {
      LinksAgree(arena, a2, byContent[g]);
    }
  }

  /** A ready bucket stays ready when a new FileSet with a path joins it: the anchor is the old one or the newcomer. */
  lemma JoinReady(arena: seq<FileSet>, b: seq<Handle>, f: FileSet)
    requires Ready(arena, b) && f.paths != []
    ensures Ready(arena + [f], b + [|arena|])
  {
    var a2 := arena + [f];
    LinksAgree(arena, a2, b);
    assert LinksOf(a2, b + [|arena|]) == LinksOf(a2, b) + [f.links];
    AnchorAppend(LinksOf(arena, b), f.links);
  }

  /** A new FileSet with a path, joining an existing bucket, keeps the content index whole. */
  lemma BucketsJoin(arena: seq<FileSet>, byContent: map<Fingerprint, seq<Handle>>, owner: seq<Fingerprint>, f: FileSet, fp: Fingerprint)
    requires Buckets(arena, byContent, owner) && f.paths != [] && fp in byContent
    ensures Buckets(arena + [f], byContent[fp := byContent[fp] + [|arena|]], owner + [fp])
  {
    var a2 := arena + [f];
    var c2 := byContent[fp := byContent[fp] + [|arena|]];
    var o2 := owner + [fp];
    forall g | g in c2
      ensures Ready(a2, c2[g]) && Distinct(c2[g])
      ensures forall t :: 0 <= t < |c2[g]| ==> o2[c2[g][t]] == g
    {
      if g == fp {
        JoinReady(arena, byContent[fp], f);
      } else {
        LinksAgree(arena, a2, byContent[g]);
      }
    }
  }

  /** A ready bucket whose members are left as they were stays ready. */
  lemma UntouchedReady(arena: seq<FileSet>, a2: seq<FileSet>, b: seq<Handle>)
    requires Ready(arena, b) && |a2| == |arena|
    requires forall t :: 0 <= t < |b| ==> a2[b[t]] == arena[b[t]]
    ensures Ready(a2, b)
  {
    LinksAgree(arena, a2, b);
  }

  /** A bucket stays ready after a merge over it: the anchor keeps its paths and every link count stays. */
  lemma MergedReady(arena: seq<FileSet>, b: seq<Handle>, dryRun: bool, fs: FileSystem)
    requires Ready(arena, b) && Distinct(b)
    ensures Ready(Merge(arena, b, dryRun, fs).arena, b)
  {
    MergeFrame(arena, b, dryRun, fs);
    LinksAgree(arena, Merge(arena, b, dryRun, fs).arena, b);
  }

  /**
   * A merge over one bucket keeps the content index whole: the anchor keeps
   * its paths, and no other bucket's member is touched.
   */
  lemma BucketsMerge(arena: seq<FileSet>, byContent: map<Fingerprint, seq<Handle>>, owner: seq<Fingerprint>, fp: Fingerprint, dryRun: bool, fs: FileSystem)
    requires Buckets(arena, byContent, owner) && fp in byContent
    ensures Buckets(Merge(arena, byContent[fp], dryRun, fs).arena, byContent, owner)
  {
    var b := byContent[fp];
    var a2 := Merge(arena, b, dryRun, fs).arena;
    MergeFrame(arena, b, dryRun, fs);
    forall g | g in byContent
      ensures Ready(a2, byContent[g])
    {
      var b2 := byContent[g];
      if g == fp {
        MergedReady(arena, b, dryRun, fs);
      } else {
        forall t | 0 <= t < |b2|
          ensures a2[b2[t]] == arena[b2[t]]
        {
          assert owner[b2[t]] == g;
          assert b2[t] !in b;
        }
        UntouchedReady(arena, a2, b2);
      }
    }
  }
}

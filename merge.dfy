/**
 * The duplicate merge (`Scanner::dedupe`) as functions over the FileSet
 * arena: anchor choice, the per-path step against the filesystem oracle,
 * draining one member into the anchor, and the whole merge over a content
 * bucket. The imperative `Scanner.Dedupe` is proved equal to `Merge`.
 */
module Merging {
  import opened Types

  predicate HandlesIn(arena: seq<FileSet>, bucket: seq<Handle>)
  {
    forall t :: 0 <= t < |bucket| ==> bucket[t] < |arena|
  }

  predicate Distinct(bucket: seq<Handle>)
  {
    forall s, t :: 0 <= s < t < |bucket| ==> bucket[s] != bucket[t]
  }

  /** Number of paths held by all FileSets of the arena. */
  function TotalPaths(arena: seq<FileSet>): nat
  {
    if arena == [] then 0 else TotalPaths(arena[..|arena| - 1]) + |arena[|arena| - 1].paths|
  }

  /** Replacing one FileSet changes the total by the difference of the two path counts. */
  lemma {:induction false} TotalPathsUpdate(arena: seq<FileSet>, h: Handle, f: FileSet)
    requires h < |arena|
    ensures TotalPaths(arena[h := f]) + |arena[h].paths| == TotalPaths(arena) + |f.paths|
    decreases |arena|
  {
    var last := |arena| - 1;
    assert arena[h := f][..last] == if h == last then arena[..last] else arena[..last][h := f];
    if h < last {
      TotalPathsUpdate(arena[..last], h, f);
    }
  }

  lemma TotalPathsAppend(arena: seq<FileSet>, f: FileSet)
    ensures TotalPaths(arena + [f]) == TotalPaths(arena) + |f.paths|
  {
    assert (arena + [f])[..|arena|] == arena;
  }

  /** Link counts of the bucket's members, in bucket order. */
  function LinksOf(arena: seq<FileSet>, bucket: seq<Handle>): (links: seq<nat>)
    requires HandlesIn(arena, bucket)
    ensures |links| == |bucket|
  {
    seq(|bucket|, t requires 0 <= t < |bucket| => arena[bucket[t]].links)
  }

  /**
   * `max_by_key(|(i, f)| (f.links(), !i))`: the index of the largest link
   * count, the earliest such index on a tie.
   */
  function Anchor(links: seq<nat>): (k: nat)
    requires |links| > 0
    ensures k < |links|
  {
    if |links| == 1 then 0
    else
      var a := Anchor(links[..|links| - 1]);
      if links[|links| - 1] > links[a] then |links| - 1 else a
  }

  /** The anchor holds the largest link count, and every earlier index a strictly smaller one. */
  lemma {:induction false} AnchorIsMax(links: seq<nat>)
    requires |links| > 0
    ensures var k := Anchor(links);
      && (forall j :: 0 <= j < |links| ==> links[j] <= links[k])
      && (forall j :: 0 <= j < k ==> links[j] < links[k])
  {
    if |links| > 1 {
      var init := links[..|links| - 1];
      AnchorIsMax(init);
      assert forall j :: 0 <= j < |init| ==> links[j] == init[j];
    }
  }

  /** The anchor of a bucket that gains one member is the old anchor, or the newcomer when its link count is strictly larger. */
  lemma {:induction false} AnchorAppend(links: seq<nat>, x: nat)
    requires |links| > 0
    ensures Anchor(links + [x]) == if x > links[Anchor(links)] then |links| else Anchor(links)
  {
    assert (links + [x])[..|links|] == links;
  }

  /** The anchor's index in a non-empty bucket. */
  function AnchorOf(arena: seq<FileSet>, bucket: seq<Handle>): (k: nat)
    requires HandlesIn(arena, bucket) && |bucket| > 0
    ensures k < |bucket|
  {
    Anchor(LinksOf(arena, bucket))
  }

  /**
   * What happens to one duplicate path: the panic of `assert_ne!`, nothing
   * more in a dry run, else hard_link to the temporary name and rename onto
   * the duplicate, either of which may fail.
   */
  function Step(dest: Path, source: Path, dryRun: bool, fs: FileSystem): Status
  {
    if dest == source then Panic(SourceIsDest(dest))
    else if dryRun then Ok
    else if dest in fs.linkFails then Err(LinkFailed(dest))
    else if dest in fs.renameFails then Err(RenameFailed(dest))
    else Ok
  }

  /** Number of leading paths of `dests` that are merged before the first one that fails. */
  function Moved(dests: seq<Path>, source: Path, dryRun: bool, fs: FileSystem): (n: nat)
    ensures n <= |dests|
  {
    if dests == [] || !Step(dests[0], source, dryRun, fs).Ok? then 0
    else 1 + Moved(dests[1..], source, dryRun, fs)
  }

  /** Every path of `ps` passes its step. */
  predicate AllPass(ps: seq<Path>, source: Path, dryRun: bool, fs: FileSystem)
  {
    forall j :: 0 <= j < |ps| ==> Step(ps[j], source, dryRun, fs).Ok?
  }

  /** `Moved` counts the paths before the first failing step: all of them pass, and the next one fails. */
  lemma {:induction false} MovedSpec(dests: seq<Path>, source: Path, dryRun: bool, fs: FileSystem)
    ensures var n := Moved(dests, source, dryRun, fs);
      && AllPass(dests[..n], source, dryRun, fs)
      && (n < |dests| ==> !Step(dests[n], source, dryRun, fs).Ok?)
  {
    if dests != [] && Step(dests[0], source, dryRun, fs).Ok? {
      MovedSpec(dests[1..], source, dryRun, fs);
      var n := Moved(dests, source, dryRun, fs);
      assert dests[..n] == [dests[0]] + dests[1..][..n - 1];
    }
  }

  lemma AllPassConcat(x: seq<Path>, y: seq<Path>, source: Path, dryRun: bool, fs: FileSystem)
    requires AllPass(x, source, dryRun, fs) && AllPass(y, source, dryRun, fs)
    ensures AllPass(x + y, source, dryRun, fs)
  {
    forall j | 0 <= j < |x + y|
      ensures Step((x + y)[j], source, dryRun, fs).Ok?
    {
      if j >= |x| {
        assert (x + y)[j] == y[j - |x|];
      }
    }
  }

  /** A path whose live step passes also passes in a dry run. */
  lemma {:induction false} MovedDryRun(ps: seq<Path>, source: Path, fs: FileSystem)
    requires Moved(ps, source, false, fs) == |ps|
    ensures Moved(ps, source, true, fs) == |ps|
  {
    if ps != [] {
      MovedDryRun(ps[1..], source, fs);
    }
  }

  /** The paths a member contributes to the merge: none for the anchor. */
  function Share(arena: seq<FileSet>, bucket: seq<Handle>, k: nat, j: nat): seq<Path>
    requires HandlesIn(arena, bucket) && j < |bucket|
  {
    if j == k then [] else arena[bucket[j]].paths
  }

  /** Paths of the non-anchor members before index `j`, concatenated in bucket order. */
  function Prior(arena: seq<FileSet>, bucket: seq<Handle>, k: nat, j: nat): seq<Path>
    requires HandlesIn(arena, bucket) && j <= |bucket|
  {
    if j == 0 then [] else Prior(arena, bucket, k, j - 1) + Share(arena, bucket, k, j - 1)
  }

  /** Paths of the non-anchor members from index `i` on, concatenated in bucket order. */
  function Later(arena: seq<FileSet>, bucket: seq<Handle>, k: nat, i: nat): seq<Path>
    requires HandlesIn(arena, bucket)
    decreases |bucket| - i
  {
    if i >= |bucket| then [] else Share(arena, bucket, k, i) + Later(arena, bucket, k, i + 1)
  }

  /** Splitting the members at any index splits their concatenated paths there. */
  lemma {:induction false} PriorLater(arena: seq<FileSet>, bucket: seq<Handle>, k: nat, i: nat)
    requires HandlesIn(arena, bucket) && i <= |bucket|
    ensures Prior(arena, bucket, k, i) + Later(arena, bucket, k, i) == Prior(arena, bucket, k, |bucket|)
    decreases |bucket| - i
  {
    var p := Prior(arena, bucket, k, i);
    if i < |bucket| {
      var s := Share(arena, bucket, k, i);
      var l := Later(arena, bucket, k, i + 1);
      assert (p + s) + l == Prior(arena, bucket, k, |bucket|) by {
        PriorLater(arena, bucket, k, i + 1);
      }
      assert p + (s + l) == (p + s) + l;
    } else {
      assert p + [] == p;
    }
  }

  /**
   * Index of the first non-anchor member, from `i` on, holding a path whose
   * step fails: the member whose drain ends the merge. The bucket's length
   * when there is none.
   */
  function Stop(arena: seq<FileSet>, bucket: seq<Handle>, k: nat, source: Path, dryRun: bool, fs: FileSystem, i: nat): (f: nat)
    requires HandlesIn(arena, bucket) && i <= |bucket|
    ensures i <= f <= |bucket|
    decreases |bucket| - i
  {
    if i == |bucket| then |bucket|
    else if i != k && Moved(arena[bucket[i]].paths, source, dryRun, fs) < |arena[bucket[i]].paths| then i
    else Stop(arena, bucket, k, source, dryRun, fs, i + 1)
  }

  /** The stopping member, when there is one, is not the anchor and holds a failing path. */
  lemma {:induction false} StopSpec(arena: seq<FileSet>, bucket: seq<Handle>, k: nat, source: Path, dryRun: bool, fs: FileSystem, i: nat)
    requires HandlesIn(arena, bucket) && i <= |bucket|
    ensures var f := Stop(arena, bucket, k, source, dryRun, fs, i);
      f < |bucket| ==> f != k && Moved(arena[bucket[f]].paths, source, dryRun, fs) < |arena[bucket[f]].paths|
    decreases |bucket| - i
  {
    if i < |bucket| && !(i != k && Moved(arena[bucket[i]].paths, source, dryRun, fs) < |arena[bucket[i]].paths|) {
      StopSpec(arena, bucket, k, source, dryRun, fs, i + 1);
    }
  }

  /** Every member before the stopping one passes whole: when the paths before `i` pass, so do those before the stop. */
  lemma {:induction false} StopPasses(arena: seq<FileSet>, bucket: seq<Handle>, k: nat, source: Path, dryRun: bool, fs: FileSystem, i: nat)
    requires HandlesIn(arena, bucket) && i <= |bucket|
    requires AllPass(Prior(arena, bucket, k, i), source, dryRun, fs)
    ensures AllPass(Prior(arena, bucket, k, Stop(arena, bucket, k, source, dryRun, fs, i)), source, dryRun, fs)
    decreases |bucket| - i
  {
    if i < |bucket| && !(i != k && Moved(arena[bucket[i]].paths, source, dryRun, fs) < |arena[bucket[i]].paths|) {
      var sh := Share(arena, bucket, k, i);
      assert AllPass(Prior(arena, bucket, k, i + 1), source, dryRun, fs) by {
        assert AllPass(sh, source, dryRun, fs) by {
          MovedSpec(sh, source, dryRun, fs);
          assert sh[..|sh|] == sh;
        }
        AllPassConcat(Prior(arena, bucket, k, i), sh, source, dryRun, fs);
      }
      StopPasses(arena, bucket, k, source, dryRun, fs, i + 1);
    }
  }

  /** A path list whose first `j` paths pass and whose next path fails (or that ends) has `j` merged paths. */
  lemma {:induction false} MovedFirst(ps: seq<Path>, j: nat, source: Path, dryRun: bool, fs: FileSystem)
    requires j <= |ps| && AllPass(ps[..j], source, dryRun, fs)
    requires j < |ps| ==> !Step(ps[j], source, dryRun, fs).Ok?
    ensures Moved(ps, source, dryRun, fs) == j
  {
    if ps != [] {
      if j > 0 {
        assert ps[1..][..j - 1] == ps[..j][1..];
        assert Step(ps[..j][0], source, dryRun, fs).Ok?;
        MovedFirst(ps[1..], j - 1, source, dryRun, fs);
      }
    }
  }

  /** The first stopping member from `s` on is `i` when every member in between passes whole and `i` stops (or ends the bucket). */
  lemma {:induction false} StopFirst(arena: seq<FileSet>, bucket: seq<Handle>, k: nat, source: Path, dryRun: bool, fs: FileSystem, s: nat, i: nat)
    requires HandlesIn(arena, bucket) && s <= i <= |bucket|
    requires forall t :: s <= t < i ==> Moved(Share(arena, bucket, k, t), source, dryRun, fs) == |Share(arena, bucket, k, t)|
    requires i < |bucket| ==> i != k && Moved(arena[bucket[i]].paths, source, dryRun, fs) < |arena[bucket[i]].paths|
    ensures Stop(arena, bucket, k, source, dryRun, fs, s) == i
    decreases i - s
  {
    if s < i {
      assert Moved(Share(arena, bucket, k, s), source, dryRun, fs) == |Share(arena, bucket, k, s)|;
      StopFirst(arena, bucket, k, source, dryRun, fs, s + 1, i);
    }
  }

  /** No member from `s` on stops later than a member that fails. */
  lemma {:induction false} StopBelow(arena: seq<FileSet>, bucket: seq<Handle>, k: nat, source: Path, dryRun: bool, fs: FileSystem, s: nat, i: nat)
    requires HandlesIn(arena, bucket) && s <= i < |bucket|
    requires i != k && Moved(arena[bucket[i]].paths, source, dryRun, fs) < |arena[bucket[i]].paths|
    ensures Stop(arena, bucket, k, source, dryRun, fs, s) <= i
    decreases i - s
  {
    if s < i {
      StopBelow(arena, bucket, k, source, dryRun, fs, s + 1, i);
    }
  }

  /**
   * The arena after a merge that appended `moved` to the anchor `bucket[k]`
   * and drained the members `bucket[..e]`.
   */
  function Settle(arena: seq<FileSet>, bucket: seq<Handle>, k: nat, e: nat, moved: seq<Path>): (r: seq<FileSet>)
    requires HandlesIn(arena, bucket) && k < |bucket| && e <= |bucket|
    ensures |r| == |arena|
  {
    seq(|arena|, h requires 0 <= h < |arena| =>
      if h == bucket[k] then arena[h].(paths := arena[h].paths + moved)
      else if h in bucket[..e] then arena[h].(paths := [])
      else arena[h])
  }

  /** Emptying the next member (not the anchor) extends the drained prefix by one. */
  lemma SettleDrain(arena: seq<FileSet>, bucket: seq<Handle>, k: nat, i: nat, moved: seq<Path>)
    requires HandlesIn(arena, bucket) && k < |bucket| && i < |bucket| && bucket[i] != bucket[k]
    ensures var s := Settle(arena, bucket, k, i, moved);
      s[bucket[i] := s[bucket[i]].(paths := [])] == Settle(arena, bucket, k, i + 1, moved)
  {
    var s := Settle(arena, bucket, k, i, moved);
    var t := Settle(arena, bucket, k, i + 1, moved);
    forall h | 0 <= h < |arena|
      ensures s[bucket[i] := s[bucket[i]].(paths := [])][h] == t[h]
    {
      assert h in bucket[..i + 1] <==> h in bucket[..i] || h == bucket[i];
    }
  }

  /** Nothing moved and nothing drained: the arena as it was. */
  lemma SettleNone(arena: seq<FileSet>, bucket: seq<Handle>, k: nat)
    requires HandlesIn(arena, bucket) && k < |bucket|
    ensures Settle(arena, bucket, k, 0, []) == arena
  {
    var s := Settle(arena, bucket, k, 0, []);
    forall h | 0 <= h < |arena|
      ensures s[h] == arena[h]
    {
      assert arena[h].paths + [] == arena[h].paths;
    }
  }

  /** Passing over the anchor's own index leaves the settled arena as it is. */
  lemma SettleSkip(arena: seq<FileSet>, bucket: seq<Handle>, k: nat, moved: seq<Path>)
    requires HandlesIn(arena, bucket) && k < |bucket|
    ensures Settle(arena, bucket, k, k, moved) == Settle(arena, bucket, k, k + 1, moved)
  {
    var s := Settle(arena, bucket, k, k, moved);
    var t := Settle(arena, bucket, k, k + 1, moved);
    forall h | 0 <= h < |arena|
      ensures s[h] == t[h]
    {
      assert h in bucket[..k + 1] <==> h in bucket[..k] || h == bucket[k];
    }
  }

  /** A member not yet drained still holds its own paths in the settled arena. */
  lemma SettleUntouched(arena: seq<FileSet>, bucket: seq<Handle>, k: nat, i: nat, moved: seq<Path>)
    requires HandlesIn(arena, bucket) && Distinct(bucket) && k < |bucket| && i < |bucket| && i != k
    ensures Settle(arena, bucket, k, i, moved)[bucket[i]] == arena[bucket[i]]
  {
    assert bucket[i] !in bucket[..i];
  }

  /** Emptying member `i`, then appending `ps` to the anchor, settles one member further with `ps` moved. */
  lemma SettleMember(arena: seq<FileSet>, bucket: seq<Handle>, k: nat, i: nat, prior: seq<Path>, ps: seq<Path>)
    requires HandlesIn(arena, bucket) && k < |bucket| && i < |bucket| && bucket[i] != bucket[k]
    ensures var s := Settle(arena, bucket, k, i, prior);
      var t := s[bucket[i] := s[bucket[i]].(paths := [])];
      t[bucket[k] := t[bucket[k]].(paths := t[bucket[k]].paths + ps)] == Settle(arena, bucket, k, i + 1, prior + ps)
  {
    var a := bucket[k];
    SettleDrain(arena, bucket, k, i, prior);
    assert arena[a].paths + prior + ps == arena[a].paths + (prior + ps);
  }

  /** Result of a merge: the new arena, the paths appended to the anchor in order, the paths that no FileSet holds any more, the outcome. */
  datatype Outcome = Outcome(arena: seq<FileSet>, moved: seq<Path>, dropped: seq<Path>, status: Status)

  /** A bucket the merge can run on without panicking before its first step. */
  predicate Ready(arena: seq<FileSet>, bucket: seq<Handle>)
  {
    HandlesIn(arena, bucket) && |bucket| > 0 && arena[bucket[AnchorOf(arena, bucket)]].paths != []
  }

  /** The hardlink source of a ready bucket: the anchor's first path. */
  function Source(arena: seq<FileSet>, bucket: seq<Handle>): Path
    requires Ready(arena, bucket)
  {
    arena[bucket[AnchorOf(arena, bucket)]].paths[0]
  }

  /** All duplicate paths of a bucket: the non-anchor members' paths in bucket order. */
  function Duplicates(arena: seq<FileSet>, bucket: seq<Handle>): seq<Path>
    requires HandlesIn(arena, bucket) && |bucket| > 0
  {
    Prior(arena, bucket, AnchorOf(arena, bucket), |bucket|)
  }

  /** Index of the member whose drain ends the merge; the bucket's length when every step passes. */
  function Failed(arena: seq<FileSet>, bucket: seq<Handle>, dryRun: bool, fs: FileSystem): (f: nat)
    requires Ready(arena, bucket)
    ensures f <= |bucket|
  {
    Stop(arena, bucket, AnchorOf(arena, bucket), Source(arena, bucket), dryRun, fs, 0)
  }

  /** Paths the merge appends to the anchor, in order. */
  function Moves(arena: seq<FileSet>, bucket: seq<Handle>, dryRun: bool, fs: FileSystem): seq<Path>
    requires Ready(arena, bucket)
  {
    var k := AnchorOf(arena, bucket);
    var f := Failed(arena, bucket, dryRun, fs);
    if f == |bucket| then Prior(arena, bucket, k, |bucket|)
    else
      var ps := arena[bucket[f]].paths;
      Prior(arena, bucket, k, f) + ps[..Moved(ps, Source(arena, bucket), dryRun, fs)]
  }

  /** Paths the merge takes out of the failing member without moving them: the failing path and the rest of its drained list. */
  function Drops(arena: seq<FileSet>, bucket: seq<Handle>, dryRun: bool, fs: FileSystem): seq<Path>
    requires Ready(arena, bucket)
  {
    var f := Failed(arena, bucket, dryRun, fs);
    if f == |bucket| then []
    else
      var ps := arena[bucket[f]].paths;
      ps[Moved(ps, Source(arena, bucket), dryRun, fs)..]
  }

  /** The paths of the members after the one whose drain ends the merge; none when the merge does not fail. */
  function Untouched(arena: seq<FileSet>, bucket: seq<Handle>, dryRun: bool, fs: FileSystem): seq<Path>
    requires Ready(arena, bucket)
  {
    Later(arena, bucket, AnchorOf(arena, bucket), Failed(arena, bucket, dryRun, fs) + 1)
  }

  /**
   * `dedupe` over one content bucket. Members are drained in bucket order
   * into the anchor; the member holding the first failing path stops the
   * merge: its earlier paths are moved, it and the rest of its drained list
   * are lost, and later members are untouched.
   */
  function Merge(arena: seq<FileSet>, bucket: seq<Handle>, dryRun: bool, fs: FileSystem): (r: Outcome)
    requires HandlesIn(arena, bucket) && Distinct(bucket)
    ensures |r.arena| == |arena|
  {
    if bucket == [] then Outcome(arena, [], [], Panic(EmptyBucket))
    else if !Ready(arena, bucket) then Outcome(arena, [], [], Panic(AnchorWithoutPaths))
    else
      var f := Failed(arena, bucket, dryRun, fs);
      var drops := Drops(arena, bucket, dryRun, fs);
      Outcome(Settle(arena, bucket, AnchorOf(arena, bucket), if f == |bucket| then f else f + 1, Moves(arena, bucket, dryRun, fs)),
              Moves(arena, bucket, dryRun, fs),
              drops,
              if drops == [] then Ok else Step(drops[0], Source(arena, bucket), dryRun, fs))
  }

  /** Splitting a path list anywhere and putting it back together. */
  lemma RejoinCut(p: seq<Path>, ps: seq<Path>, rest: seq<Path>, m: nat)
    requires m <= |ps|
    ensures (p + ps[..m]) + ps[m..] + rest == p + ps + rest
  {
    assert ps[..m] + ps[m..] == ps;
    assert (p + ps[..m]) + ps[m..] == p + (ps[..m] + ps[m..]);
  }

  /** A passing list followed by another list's passing prefix passes, and the path after that prefix fails. */
  lemma PassingPrefix(p: seq<Path>, ps: seq<Path>, source: Path, dryRun: bool, fs: FileSystem)
    requires AllPass(p, source, dryRun, fs)
    ensures var m := Moved(ps, source, dryRun, fs);
      && AllPass(p + ps[..m], source, dryRun, fs)
      && (m < |ps| ==> !Step(ps[m], source, dryRun, fs).Ok?)
  {
    var pass := ps[..Moved(ps, source, dryRun, fs)];
    assert AllPass(pass, source, dryRun, fs) by {
      MovedSpec(ps, source, dryRun, fs);
    }
    AllPassConcat(p, pass, source, dryRun, fs);
  }

  /** The member where a merge stops is not the anchor and holds a failing path. */
  lemma FailedMember(arena: seq<FileSet>, bucket: seq<Handle>, dryRun: bool, fs: FileSystem)
    requires Ready(arena, bucket) && Failed(arena, bucket, dryRun, fs) < |bucket|
    ensures var f := Failed(arena, bucket, dryRun, fs);
      var ps := arena[bucket[f]].paths;
      f != AnchorOf(arena, bucket) && Moved(ps, Source(arena, bucket), dryRun, fs) < |ps|
  {
    StopSpec(arena, bucket, AnchorOf(arena, bucket), Source(arena, bucket), dryRun, fs, 0);
  }

  lemma MovesAtStop(arena: seq<FileSet>, bucket: seq<Handle>, dryRun: bool, fs: FileSystem)
    requires Ready(arena, bucket) && Failed(arena, bucket, dryRun, fs) < |bucket|
    ensures var f := Failed(arena, bucket, dryRun, fs);
      var ps := arena[bucket[f]].paths;
      Moves(arena, bucket, dryRun, fs) == Prior(arena, bucket, AnchorOf(arena, bucket), f) + ps[..Moved(ps, Source(arena, bucket), dryRun, fs)]
  {
  }

  lemma DropsAtStop(arena: seq<FileSet>, bucket: seq<Handle>, dryRun: bool, fs: FileSystem)
    requires Ready(arena, bucket) && Failed(arena, bucket, dryRun, fs) < |bucket|
    ensures var f := Failed(arena, bucket, dryRun, fs);
      var ps := arena[bucket[f]].paths;
      Drops(arena, bucket, dryRun, fs) == ps[Moved(ps, Source(arena, bucket), dryRun, fs)..]
  {
  }

  lemma UntouchedAtStop(arena: seq<FileSet>, bucket: seq<Handle>, dryRun: bool, fs: FileSystem)
    requires Ready(arena, bucket) && Failed(arena, bucket, dryRun, fs) < |bucket|
    ensures Untouched(arena, bucket, dryRun, fs) == Later(arena, bucket, AnchorOf(arena, bucket), Failed(arena, bucket, dryRun, fs) + 1)
  {
  }

  /** The pieces of a merge that stops at member `f`: its passing prefix is moved after the earlier members' paths, the rest dropped. */
  lemma StopParts(arena: seq<FileSet>, bucket: seq<Handle>, dryRun: bool, fs: FileSystem)
    requires Ready(arena, bucket) && Failed(arena, bucket, dryRun, fs) < |bucket|
    ensures var k := AnchorOf(arena, bucket);
      var f := Failed(arena, bucket, dryRun, fs);
      var ps := arena[bucket[f]].paths;
      var m := Moved(ps, Source(arena, bucket), dryRun, fs);
      && f != k && m < |ps|
      && Moves(arena, bucket, dryRun, fs) == Prior(arena, bucket, k, f) + ps[..m]
      && Drops(arena, bucket, dryRun, fs) == ps[m..]
      && Untouched(arena, bucket, dryRun, fs) == Later(arena, bucket, k, f + 1)
  {
    FailedMember(arena, bucket, dryRun, fs);
    MovesAtStop(arena, bucket, dryRun, fs);
    DropsAtStop(arena, bucket, dryRun, fs);
    UntouchedAtStop(arena, bucket, dryRun, fs);
  }

  /** The pieces of a list cut at `m`, between a prefix and a suffix, rejoin into the whole. */
  lemma Rejoin(moved: seq<Path>, drops: seq<Path>, rest: seq<Path>, p: seq<Path>, ps: seq<Path>, m: nat, all: seq<Path>)
    requires m <= |ps| && moved == p + ps[..m] && drops == ps[m..] && p + ps + rest == all
    ensures moved + drops + rest == all
  {
    RejoinCut(p, ps, rest, m);
  }

  /** A merge that stops at a member: moved, dropped and untouched paths make up the duplicates, in order. */
  lemma StopRejoins(arena: seq<FileSet>, bucket: seq<Handle>, dryRun: bool, fs: FileSystem)
    requires Ready(arena, bucket) && Failed(arena, bucket, dryRun, fs) < |bucket|
    ensures Moves(arena, bucket, dryRun, fs) + Drops(arena, bucket, dryRun, fs) + Untouched(arena, bucket, dryRun, fs) == Duplicates(arena, bucket)
  {
    var k := AnchorOf(arena, bucket);
    var f := Failed(arena, bucket, dryRun, fs);
    var ps := arena[bucket[f]].paths;
    StopParts(arena, bucket, dryRun, fs);
    PriorLater(arena, bucket, k, f + 1);
    Rejoin(Moves(arena, bucket, dryRun, fs), Drops(arena, bucket, dryRun, fs), Untouched(arena, bucket, dryRun, fs),
           Prior(arena, bucket, k, f), ps, Moved(ps, Source(arena, bucket), dryRun, fs), Duplicates(arena, bucket));
  }

  /** A merge that stops at a member: every moved path passed its step. */
  lemma StopMovesPass(arena: seq<FileSet>, bucket: seq<Handle>, dryRun: bool, fs: FileSystem)
    requires Ready(arena, bucket) && Failed(arena, bucket, dryRun, fs) < |bucket|
    ensures AllPass(Moves(arena, bucket, dryRun, fs), Source(arena, bucket), dryRun, fs)
  {
    var k := AnchorOf(arena, bucket);
    var source := Source(arena, bucket);
    var p := Prior(arena, bucket, k, Failed(arena, bucket, dryRun, fs));
    StopParts(arena, bucket, dryRun, fs);
    assert AllPass(p, source, dryRun, fs) by {
      StopPasses(arena, bucket, k, source, dryRun, fs, 0);
    }
    PassingPrefix(p, arena[bucket[Failed(arena, bucket, dryRun, fs)]].paths, source, dryRun, fs);
  }

  /** A merge that stops at a member drops at least one path, and the first dropped path failed its step. */
  lemma StopDropFails(arena: seq<FileSet>, bucket: seq<Handle>, dryRun: bool, fs: FileSystem)
    requires Ready(arena, bucket) && Failed(arena, bucket, dryRun, fs) < |bucket|
    ensures var drops := Drops(arena, bucket, dryRun, fs);
      drops != [] && !Step(drops[0], Source(arena, bucket), dryRun, fs).Ok?
  {
    StopParts(arena, bucket, dryRun, fs);
    MovedSpec(arena[bucket[Failed(arena, bucket, dryRun, fs)]].paths, Source(arena, bucket), dryRun, fs);
  }

  /**
   * The merge moves the longest passing prefix of the duplicate paths: the
   * duplicate paths are the moved ones, then the dropped ones, then those of
   * the members after the one where the merge stopped; every moved path
   * passed its step, and the first dropped one failed it. Nothing is left
   * behind when nothing is dropped.
   */
  lemma MergeSplitsDuplicates(arena: seq<FileSet>, bucket: seq<Handle>, dryRun: bool, fs: FileSystem)
    requires Ready(arena, bucket)
    ensures var moved := Moves(arena, bucket, dryRun, fs);
      var drops := Drops(arena, bucket, dryRun, fs);
      var source := Source(arena, bucket);
      && moved + drops + Untouched(arena, bucket, dryRun, fs) == Duplicates(arena, bucket)
      && AllPass(moved, source, dryRun, fs)
      && (drops != [] ==> !Step(drops[0], source, dryRun, fs).Ok?)
      && (drops == [] ==> Failed(arena, bucket, dryRun, fs) == |bucket| && moved == Duplicates(arena, bucket))
  {
    if Failed(arena, bucket, dryRun, fs) < |bucket| {
      StopRejoins(arena, bucket, dryRun, fs);
      StopMovesPass(arena, bucket, dryRun, fs);
      StopDropFails(arena, bucket, dryRun, fs);
    } else {
      var k := AnchorOf(arena, bucket);
      var p := Prior(arena, bucket, k, |bucket|);
      assert Moves(arena, bucket, dryRun, fs) == p;
      assert Untouched(arena, bucket, dryRun, fs) == [];
      assert p + [] + [] == p;
      assert AllPass(p, Source(arena, bucket), dryRun, fs) by {
        StopPasses(arena, bucket, k, Source(arena, bucket), dryRun, fs, 0);
      }
    }
  }

  /**
   * A merge that starts fails exactly when it drops paths, exactly when it
   * stops before the end of the bucket, and then with the status of the
   * first dropped path's step; it succeeds exactly when it moves every
   * duplicate path.
   */
  lemma MergeFailsOnFirstDropped(arena: seq<FileSet>, bucket: seq<Handle>, dryRun: bool, fs: FileSystem)
    requires Distinct(bucket) && Ready(arena, bucket)
    ensures var r := Merge(arena, bucket, dryRun, fs);
      && (r.status.Ok? <==> r.dropped == [])
      && (r.status.Ok? <==> Failed(arena, bucket, dryRun, fs) == |bucket|)
      && (r.status.Ok? <==> r.moved == Duplicates(arena, bucket))
      && (!r.status.Ok? ==> r.status == Step(r.dropped[0], Source(arena, bucket), dryRun, fs))
  {
    MergeSplitsDuplicates(arena, bucket, dryRun, fs);
    var drops := Drops(arena, bucket, dryRun, fs);
    if drops != [] {
      var moved := Moves(arena, bucket, dryRun, fs);
      assert |moved| < |moved + drops + Untouched(arena, bucket, dryRun, fs)|;
    }
  }

  /**
   * The merge changes no link count and no FileSet outside the bucket; the
   * anchor keeps its paths, its first path (the link source) included, and
   * gains the moved ones at the end.
   */
  lemma MergeFrame(arena: seq<FileSet>, bucket: seq<Handle>, dryRun: bool, fs: FileSystem)
    requires Distinct(bucket) && Ready(arena, bucket)
    ensures var r := Merge(arena, bucket, dryRun, fs);
      var anchor := bucket[AnchorOf(arena, bucket)];
      && (forall h :: 0 <= h < |arena| ==> r.arena[h].links == arena[h].links)
      && (forall h :: 0 <= h < |arena| && h !in bucket ==> r.arena[h] == arena[h])
      && r.arena[anchor].paths == arena[anchor].paths + r.moved
      && r.arena[anchor].paths[0] == Source(arena, bucket)
  {
  }

  /**
   * After a successful merge the anchor holds its old paths followed by
   * every duplicate path, and every other member is empty.
   */
  lemma MergeSucceeds(arena: seq<FileSet>, bucket: seq<Handle>, dryRun: bool, fs: FileSystem)
    requires Distinct(bucket) && Ready(arena, bucket)
    requires Merge(arena, bucket, dryRun, fs).status.Ok?
    ensures var r := Merge(arena, bucket, dryRun, fs);
      var k := AnchorOf(arena, bucket);
      && r.arena[bucket[k]].paths == arena[bucket[k]].paths + Duplicates(arena, bucket)
      && (forall j :: 0 <= j < |bucket| && j != k ==> r.arena[bucket[j]].paths == [])
  {
    MergeFailsOnFirstDropped(arena, bucket, dryRun, fs);
    var k := AnchorOf(arena, bucket);
    var r := Merge(arena, bucket, dryRun, fs);
    forall j | 0 <= j < |bucket| && j != k
      ensures r.arena[bucket[j]].paths == []
    {
      assert bucket[j] in bucket[..|bucket|];
    }
  }

  /**
   * After a failed merge, the member that failed and every non-anchor member
   * before it are empty, and every member after it is untouched.
   */
  lemma MergeFailureShape(arena: seq<FileSet>, bucket: seq<Handle>, dryRun: bool, fs: FileSystem)
    requires Distinct(bucket) && Ready(arena, bucket)
    requires !Merge(arena, bucket, dryRun, fs).status.Ok?
    ensures var r := Merge(arena, bucket, dryRun, fs);
      var k := AnchorOf(arena, bucket);
      var f := Failed(arena, bucket, dryRun, fs);
      && f < |bucket| && f != k
      && (forall j :: 0 <= j <= f && j != k ==> r.arena[bucket[j]].paths == [])
      && (forall j :: f < j < |bucket| && j != k ==> r.arena[bucket[j]] == arena[bucket[j]])
  {
    MergeFailsOnFirstDropped(arena, bucket, dryRun, fs);
    var k := AnchorOf(arena, bucket);
    var f := Failed(arena, bucket, dryRun, fs);
    var r := Merge(arena, bucket, dryRun, fs);
    assert f != k by {
      StopSpec(arena, bucket, k, Source(arena, bucket), dryRun, fs, 0);
    }
    forall j | 0 <= j <= f && j != k
      ensures r.arena[bucket[j]].paths == []
    {
      assert bucket[j] in bucket[..f + 1];
    }
    forall j | f < j < |bucket| && j != k
      ensures r.arena[bucket[j]] == arena[bucket[j]]
    {
      assert bucket[j] !in bucket[..f + 1];
    }
  }

  /** A merge that stops at a member: its value in terms of that member's passing prefix. */
  lemma MergeAtFailure(arena: seq<FileSet>, bucket: seq<Handle>, dryRun: bool, fs: FileSystem)
    requires Distinct(bucket) && Ready(arena, bucket)
    requires Failed(arena, bucket, dryRun, fs) < |bucket|
    ensures var k := AnchorOf(arena, bucket);
      var source := Source(arena, bucket);
      var f := Failed(arena, bucket, dryRun, fs);
      var ps := arena[bucket[f]].paths;
      var m := Moved(ps, source, dryRun, fs);
      var moved := Prior(arena, bucket, k, f) + ps[..m];
      && m < |ps|
      && Merge(arena, bucket, dryRun, fs) == Outcome(Settle(arena, bucket, k, f + 1, moved), moved, ps[m..], Step(ps[m], source, dryRun, fs))
  {
    var f := Failed(arena, bucket, dryRun, fs);
    var ps := arena[bucket[f]].paths;
    assert Moved(ps, Source(arena, bucket), dryRun, fs) < |ps| by {
      StopSpec(arena, bucket, AnchorOf(arena, bucket), Source(arena, bucket), dryRun, fs, 0);
    }
  }

  /**
   * The merge when member `i` is the first to hold a failing path: the
   * members before it are drained into the anchor, its passing paths too,
   * and the rest of its paths are dropped.
   */
  lemma MergeStopsAt(arena: seq<FileSet>, bucket: seq<Handle>, dryRun: bool, fs: FileSystem, i: nat)
    requires Distinct(bucket) && Ready(arena, bucket)
    requires var k := AnchorOf(arena, bucket);
      && i < |bucket| && i != k
      && (forall t :: 0 <= t < i ==> Moved(Share(arena, bucket, k, t), Source(arena, bucket), dryRun, fs) == |Share(arena, bucket, k, t)|)
      && Moved(arena[bucket[i]].paths, Source(arena, bucket), dryRun, fs) < |arena[bucket[i]].paths|
    ensures var k := AnchorOf(arena, bucket);
      var source := Source(arena, bucket);
      var ps := arena[bucket[i]].paths;
      var m := Moved(ps, source, dryRun, fs);
      var moved := Prior(arena, bucket, k, i) + ps[..m];
      Merge(arena, bucket, dryRun, fs) == Outcome(Settle(arena, bucket, k, i + 1, moved), moved, ps[m..], Step(ps[m], source, dryRun, fs))
  {
    assert Failed(arena, bucket, dryRun, fs) == i by {
      StopFirst(arena, bucket, AnchorOf(arena, bucket), Source(arena, bucket), dryRun, fs, 0, i);
    }
    MergeAtFailure(arena, bucket, dryRun, fs);
  }

  /** The merge when every path passes: every member drained into the anchor, nothing dropped. */
  lemma MergeCompletes(arena: seq<FileSet>, bucket: seq<Handle>, dryRun: bool, fs: FileSystem)
    requires Distinct(bucket) && Ready(arena, bucket)
    requires var k := AnchorOf(arena, bucket);
      forall t :: 0 <= t < |bucket| ==> Moved(Share(arena, bucket, k, t), Source(arena, bucket), dryRun, fs) == |Share(arena, bucket, k, t)|
    ensures var k := AnchorOf(arena, bucket);
      var moved := Prior(arena, bucket, k, |bucket|);
      Merge(arena, bucket, dryRun, fs) == Outcome(Settle(arena, bucket, k, |bucket|, moved), moved, [], Ok)
  {
    StopFirst(arena, bucket, AnchorOf(arena, bucket), Source(arena, bucket), dryRun, fs, 0, |bucket|);
  }

  /**
   * `dedupe` as its loops run it, one member at a time: the outcome after the
   * first `i` members of the bucket. The anchor is passed over; a member is
   * drained only while nothing has failed.
   */
  function Drain(arena: seq<FileSet>, bucket: seq<Handle>, k: nat, source: Path, dryRun: bool, fs: FileSystem, i: nat): (r: Outcome)
    requires HandlesIn(arena, bucket) && k < |bucket| && i <= |bucket|
    ensures |r.arena| == |arena|
  {
    if i == 0 then Outcome(arena, [], [], Ok)
    else Advance(arena, bucket, k, source, dryRun, fs, Drain(arena, bucket, k, source, dryRun, fs, i - 1), i - 1)
  }

  /** One turn of the loop over the bucket: member `j` is passed over when it is the anchor or an earlier member failed, and drained otherwise. */
  function Advance(arena: seq<FileSet>, bucket: seq<Handle>, k: nat, source: Path, dryRun: bool, fs: FileSystem, d: Outcome, j: nat): (r: Outcome)
    requires HandlesIn(arena, bucket) && k < |bucket| && j < |bucket| && |d.arena| == |arena|
    ensures |r.arena| == |arena|
  {
    if !d.status.Ok? || j == k then d
    else
      var e := DrainOne(d.arena, bucket[j], bucket[k], source, dryRun, fs);
      Outcome(e.arena, d.moved + e.moved, d.dropped + e.dropped, e.status)
  }

  /**
   * One member drained into the anchor (`paths.drain(..)`): the member is
   * emptied, its paths up to the first failing one are appended to the
   * anchor, and the failing one and those after it are dropped.
   */
  function DrainOne(arena: seq<FileSet>, h: Handle, anchor: Handle, source: Path, dryRun: bool, fs: FileSystem): (r: Outcome)
    requires h < |arena| && anchor < |arena|
    ensures |r.arena| == |arena|
  {
    var ps := arena[h].paths;
    var m := Moved(ps, source, dryRun, fs);
    var t := arena[h := arena[h].(paths := [])];
    Outcome(t[anchor := t[anchor].(paths := t[anchor].paths + ps[..m])], ps[..m], ps[m..],
            if m == |ps| then Ok else Step(ps[m], source, dryRun, fs))
  }

  /** Once a member has failed, the later members change nothing. */
  lemma {:induction false} DrainSticks(arena: seq<FileSet>, bucket: seq<Handle>, k: nat, source: Path, dryRun: bool, fs: FileSystem, i: nat)
    requires HandlesIn(arena, bucket) && k < |bucket| && i <= |bucket|
    requires !Drain(arena, bucket, k, source, dryRun, fs, i).status.Ok?
    ensures Drain(arena, bucket, k, source, dryRun, fs, |bucket|) == Drain(arena, bucket, k, source, dryRun, fs, i)
    decreases |bucket| - i
  {
    if i < |bucket| {
      DrainSticks(arena, bucket, k, source, dryRun, fs, i + 1);
    }
  }

  /** A member before the stopping one is the anchor or passes whole. */
  lemma BeforeStop(arena: seq<FileSet>, bucket: seq<Handle>, k: nat, source: Path, dryRun: bool, fs: FileSystem, j: nat)
    requires HandlesIn(arena, bucket) && j < Stop(arena, bucket, k, source, dryRun, fs, 0)
    ensures Moved(Share(arena, bucket, k, j), source, dryRun, fs) == |Share(arena, bucket, k, j)|
  {
    if j != k && Moved(arena[bucket[j]].paths, source, dryRun, fs) < |arena[bucket[j]].paths| {
      StopBelow(arena, bucket, k, source, dryRun, fs, 0, j);
    }
  }

  /** Draining a member that passes whole, from the settled arena, settles one member further. */
  lemma DrainWhole(arena: seq<FileSet>, bucket: seq<Handle>, k: nat, source: Path, dryRun: bool, fs: FileSystem, j: nat)
    requires HandlesIn(arena, bucket) && Distinct(bucket) && k < |bucket| && j < |bucket| && j != k
    requires Moved(arena[bucket[j]].paths, source, dryRun, fs) == |arena[bucket[j]].paths|
    ensures var prior := Prior(arena, bucket, k, j);
      var ps := arena[bucket[j]].paths;
      DrainOne(Settle(arena, bucket, k, j, prior), bucket[j], bucket[k], source, dryRun, fs)
        == Outcome(Settle(arena, bucket, k, j + 1, prior + ps), ps, [], Ok)
  {
    var prior := Prior(arena, bucket, k, j);
    var ps := arena[bucket[j]].paths;
    SettleUntouched(arena, bucket, k, j, prior);
    assert bucket[j] != bucket[k];
    SettleMember(arena, bucket, k, j, prior, ps);
    assert ps[..|ps|] == ps && ps[|ps|..] == [];
  }

  /** Draining the failing member from the settled arena: its passing prefix is moved and the rest dropped. */
  lemma DrainFailing(arena: seq<FileSet>, bucket: seq<Handle>, k: nat, source: Path, dryRun: bool, fs: FileSystem, j: nat)
    requires HandlesIn(arena, bucket) && Distinct(bucket) && k < |bucket| && j < |bucket| && j != k
    requires Moved(arena[bucket[j]].paths, source, dryRun, fs) < |arena[bucket[j]].paths|
    ensures var prior := Prior(arena, bucket, k, j);
      var ps := arena[bucket[j]].paths;
      var m := Moved(ps, source, dryRun, fs);
      DrainOne(Settle(arena, bucket, k, j, prior), bucket[j], bucket[k], source, dryRun, fs)
        == Outcome(Settle(arena, bucket, k, j + 1, prior + ps[..m]), ps[..m], ps[m..], Step(ps[m], source, dryRun, fs))
  {
    var prior := Prior(arena, bucket, k, j);
    var ps := arena[bucket[j]].paths;
    SettleUntouched(arena, bucket, k, j, prior);
    assert bucket[j] != bucket[k];
    SettleMember(arena, bucket, k, j, prior, ps[..Moved(ps, source, dryRun, fs)]);
  }

  /** The outcome after the first `i` members when every path of the non-anchor ones has moved onto the anchor and none was dropped. */
  function Settled(arena: seq<FileSet>, bucket: seq<Handle>, k: nat, i: nat): Outcome
    requires HandlesIn(arena, bucket) && k < |bucket| && i <= |bucket|
  {
    Outcome(Settle(arena, bucket, k, i, Prior(arena, bucket, k, i)), Prior(arena, bucket, k, i), [], Ok)
  }

  /** From the settled state after `i - 1` members, a next member that passes whole gives the settled state after `i`. */
  lemma DrainPasses(arena: seq<FileSet>, bucket: seq<Handle>, k: nat, source: Path, dryRun: bool, fs: FileSystem, i: nat)
    requires HandlesIn(arena, bucket) && Distinct(bucket) && k < |bucket| && 0 < i <= |bucket|
    requires Moved(Share(arena, bucket, k, i - 1), source, dryRun, fs) == |Share(arena, bucket, k, i - 1)|
    ensures Advance(arena, bucket, k, source, dryRun, fs, Settled(arena, bucket, k, i - 1), i - 1) == Settled(arena, bucket, k, i)
  {
    var j := i - 1;
    var prior := Prior(arena, bucket, k, j);
    var d := Settled(arena, bucket, k, j);
    if j == k {
      assert Prior(arena, bucket, k, i) == prior by {
        AppendNothing(prior);
      }
      SettleSkip(arena, bucket, k, prior);
    } else {
      var ps := arena[bucket[j]].paths;
      var e := DrainOne(d.arena, bucket[j], bucket[k], source, dryRun, fs);
      assert e == Outcome(Settle(arena, bucket, k, i, prior + ps), ps, [], Ok) by {
        DrainWhole(arena, bucket, k, source, dryRun, fs, j);
      }
      assert Prior(arena, bucket, k, i) == prior + ps;
      AppendNothing(d.dropped);
    }
  }

  /** A bucket of distinct handles, `f` the member where the drain stops, and `i` a member count up to it. */
  predicate BeforeFailure(arena: seq<FileSet>, bucket: seq<Handle>, k: nat, source: Path, dryRun: bool, fs: FileSystem, f: nat, i: nat)
  {
    HandlesIn(arena, bucket) && Distinct(bucket) && k < |bucket| && f == Stop(arena, bucket, k, source, dryRun, fs, 0) && i <= f <= |bucket|
  }

  /** Before any member, the drain is the settled state with nothing moved. */
  lemma DrainStart(arena: seq<FileSet>, bucket: seq<Handle>, k: nat, source: Path, dryRun: bool, fs: FileSystem)
    requires HandlesIn(arena, bucket) && k < |bucket|
    ensures Drain(arena, bucket, k, source, dryRun, fs, 0) == Settled(arena, bucket, k, 0)
  {
    SettleNone(arena, bucket, k);
  }

  /** One member before the stopping member: draining it keeps the arena settled with nothing dropped. */
  lemma DrainStep(arena: seq<FileSet>, bucket: seq<Handle>, k: nat, source: Path, dryRun: bool, fs: FileSystem, f: nat, i: nat)
    requires BeforeFailure(arena, bucket, k, source, dryRun, fs, f, i) && 0 < i
    ensures Advance(arena, bucket, k, source, dryRun, fs, Settled(arena, bucket, k, i - 1), i - 1) == Settled(arena, bucket, k, i)
  {
    BeforeStop(arena, bucket, k, source, dryRun, fs, i - 1);
    DrainPasses(arena, bucket, k, source, dryRun, fs, i);
  }

  /** Up to the stopping member, member-by-member draining has settled the arena with nothing dropped. */
  lemma {:induction false} DrainBefore(arena: seq<FileSet>, bucket: seq<Handle>, k: nat, source: Path, dryRun: bool, fs: FileSystem, f: nat, i: nat)
    requires BeforeFailure(arena, bucket, k, source, dryRun, fs, f, i)
    ensures Drain(arena, bucket, k, source, dryRun, fs, i) == Settled(arena, bucket, k, i)
  {
    if i == 0 {
      DrainStart(arena, bucket, k, source, dryRun, fs);
    } else {
      DrainBefore(arena, bucket, k, source, dryRun, fs, f, i - 1);
      DrainStep(arena, bucket, k, source, dryRun, fs, f, i);
    }
  }

  /** Draining the stopping member: its passing prefix is moved, the rest dropped, and its failing step is the status. */
  lemma DrainAtStop(arena: seq<FileSet>, bucket: seq<Handle>, k: nat, source: Path, dryRun: bool, fs: FileSystem, f: nat)
    requires HandlesIn(arena, bucket) && Distinct(bucket) && k < |bucket|
    requires f == Stop(arena, bucket, k, source, dryRun, fs, 0) && f < |bucket|
    ensures var ps := arena[bucket[f]].paths;
      var m := Moved(ps, source, dryRun, fs);
      var moved := Prior(arena, bucket, k, f) + ps[..m];
      && m < |ps|
      && Drain(arena, bucket, k, source, dryRun, fs, f + 1) == Outcome(Settle(arena, bucket, k, f + 1, moved), moved, ps[m..], Step(ps[m], source, dryRun, fs))
  {
    var ps := arena[bucket[f]].paths;
    StopSpec(arena, bucket, k, source, dryRun, fs, 0);
    DrainBefore(arena, bucket, k, source, dryRun, fs, f, f);
    DrainFailing(arena, bucket, k, source, dryRun, fs, f);
    assert [] + ps[Moved(ps, source, dryRun, fs)..] == ps[Moved(ps, source, dryRun, fs)..];
  }

  /** The failing step ends the drain: nothing after the stopping member changes the outcome. */
  lemma DrainEndsAtStop(arena: seq<FileSet>, bucket: seq<Handle>, k: nat, source: Path, dryRun: bool, fs: FileSystem, f: nat)
    requires HandlesIn(arena, bucket) && Distinct(bucket) && k < |bucket|
    requires f == Stop(arena, bucket, k, source, dryRun, fs, 0) && f < |bucket|
    ensures Drain(arena, bucket, k, source, dryRun, fs, |bucket|) == Drain(arena, bucket, k, source, dryRun, fs, f + 1)
  {
    var ps := arena[bucket[f]].paths;
    var m := Moved(ps, source, dryRun, fs);
    assert m < |ps| && Drain(arena, bucket, k, source, dryRun, fs, f + 1).status == Step(ps[m], source, dryRun, fs) by {
      DrainAtStop(arena, bucket, k, source, dryRun, fs, f);
    }
    assert !Step(ps[m], source, dryRun, fs).Ok? by {
      MovedSpec(ps, source, dryRun, fs);
    }
    DrainSticks(arena, bucket, k, source, dryRun, fs, f + 1);
  }

  /** A merge in which no member fails settles every member and drops nothing. */
  lemma MergeWhole(arena: seq<FileSet>, bucket: seq<Handle>, dryRun: bool, fs: FileSystem)
    requires Distinct(bucket) && Ready(arena, bucket) && Failed(arena, bucket, dryRun, fs) == |bucket|
    ensures var k := AnchorOf(arena, bucket);
      Merge(arena, bucket, dryRun, fs) == Outcome(Settle(arena, bucket, k, |bucket|, Prior(arena, bucket, k, |bucket|)), Prior(arena, bucket, k, |bucket|), [], Ok)
  {
  }

  /** Draining member by member, as the loops do, computes the closed-form merge. */
  lemma DrainIsMerge(arena: seq<FileSet>, bucket: seq<Handle>, dryRun: bool, fs: FileSystem)
    requires Distinct(bucket) && Ready(arena, bucket)
    ensures Drain(arena, bucket, AnchorOf(arena, bucket), Source(arena, bucket), dryRun, fs, |bucket|) == Merge(arena, bucket, dryRun, fs)
  {
    if Failed(arena, bucket, dryRun, fs) < |bucket| {
      DrainFails(arena, bucket, dryRun, fs);
    } else {
      DrainCompletes(arena, bucket, dryRun, fs);
    }
  }

  /** The drain agrees with the merge when some member fails. */
  lemma DrainFails(arena: seq<FileSet>, bucket: seq<Handle>, dryRun: bool, fs: FileSystem)
    requires Distinct(bucket) && Ready(arena, bucket) && Failed(arena, bucket, dryRun, fs) < |bucket|
    ensures Drain(arena, bucket, AnchorOf(arena, bucket), Source(arena, bucket), dryRun, fs, |bucket|) == Merge(arena, bucket, dryRun, fs)
  {
    var k := AnchorOf(arena, bucket);
    var source := Source(arena, bucket);
    var f := Failed(arena, bucket, dryRun, fs);
    DrainEndsAtStop(arena, bucket, k, source, dryRun, fs, f);
    DrainAtStop(arena, bucket, k, source, dryRun, fs, f);
    MergeAtFailure(arena, bucket, dryRun, fs);
  }

  /** The drain agrees with the merge when every member passes whole. */
  lemma DrainCompletes(arena: seq<FileSet>, bucket: seq<Handle>, dryRun: bool, fs: FileSystem)
    requires Distinct(bucket) && Ready(arena, bucket) && Failed(arena, bucket, dryRun, fs) == |bucket|
    ensures Drain(arena, bucket, AnchorOf(arena, bucket), Source(arena, bucket), dryRun, fs, |bucket|) == Merge(arena, bucket, dryRun, fs)
  {
    DrainBefore(arena, bucket, AnchorOf(arena, bucket), Source(arena, bucket), dryRun, fs, |bucket|, |bucket|);
    MergeWhole(arena, bucket, dryRun, fs);
  }

  /** A merge over a ready bucket ends well, with the I/O error of a hard link or rename, or with the self-link panic. */
  lemma MergeOutcomes(arena: seq<FileSet>, bucket: seq<Handle>, dryRun: bool, fs: FileSystem)
    requires Distinct(bucket) && Ready(arena, bucket)
    ensures var st := Merge(arena, bucket, dryRun, fs).status;
      || st.Ok?
      || (st.Err? && (st.error.LinkFailed? || st.error.RenameFailed?))
      || (st.Panic? && st.abort.SourceIsDest?)
  {
  }

  /** A dry run touches no file, so it never fails with an I/O error. */
  lemma DryRunNeverErrs(arena: seq<FileSet>, bucket: seq<Handle>, fs: FileSystem)
    requires HandlesIn(arena, bucket) && Distinct(bucket)
    ensures !Merge(arena, bucket, true, fs).status.Err?
  {
  }

  /** A dry run makes no filesystem call: its merge is the same whatever the filesystem. */
  lemma DryRunIgnoresFileSystem(arena: seq<FileSet>, bucket: seq<Handle>, fs: FileSystem, fs': FileSystem)
    requires HandlesIn(arena, bucket) && Distinct(bucket)
    ensures Merge(arena, bucket, true, fs) == Merge(arena, bucket, true, fs')
  {
    if Ready(arena, bucket) {
      var k := AnchorOf(arena, bucket);
      var source := Source(arena, bucket);
      StopIgnoresFileSystem(arena, bucket, k, source, fs, fs', 0);
      var f := Failed(arena, bucket, true, fs);
      if f < |bucket| {
        MovedIgnoresFileSystem(arena[bucket[f]].paths, source, fs, fs');
      }
    }
  }

  lemma {:induction false} MovedIgnoresFileSystem(ps: seq<Path>, source: Path, fs: FileSystem, fs': FileSystem)
    ensures Moved(ps, source, true, fs) == Moved(ps, source, true, fs')
  {
    if ps != [] {
      MovedIgnoresFileSystem(ps[1..], source, fs, fs');
    }
  }

  lemma {:induction false} StopIgnoresFileSystem(arena: seq<FileSet>, bucket: seq<Handle>, k: nat, source: Path, fs: FileSystem, fs': FileSystem, i: nat)
    requires HandlesIn(arena, bucket) && i <= |bucket|
    ensures Stop(arena, bucket, k, source, true, fs, i) == Stop(arena, bucket, k, source, true, fs', i)
    decreases |bucket| - i
  {
    if i < |bucket| {
      if i != k {
        MovedIgnoresFileSystem(arena[bucket[i]].paths, source, fs, fs');
      }
      StopIgnoresFileSystem(arena, bucket, k, source, fs, fs', i + 1);
    }
  }

  /**
   * A dry run reports the same merge as a live run that succeeds: the same
   * paths are moved and the arena ends the same.
   */
  lemma DryRunMatchesLive(arena: seq<FileSet>, bucket: seq<Handle>, fs: FileSystem)
    requires HandlesIn(arena, bucket) && Distinct(bucket)
    requires Merge(arena, bucket, false, fs).status.Ok?
    ensures Merge(arena, bucket, true, fs) == Merge(arena, bucket, false, fs)
  {
    MergeFailsOnFirstDropped(arena, bucket, false, fs);
    StopDryRun(arena, bucket, AnchorOf(arena, bucket), Source(arena, bucket), fs, 0);
  }

  lemma {:induction false} StopDryRun(arena: seq<FileSet>, bucket: seq<Handle>, k: nat, source: Path, fs: FileSystem, i: nat)
    requires HandlesIn(arena, bucket) && i <= |bucket|
    requires Stop(arena, bucket, k, source, false, fs, i) == |bucket|
    ensures Stop(arena, bucket, k, source, true, fs, i) == |bucket|
    decreases |bucket| - i
  {
    if i < |bucket| {
      if i != k {
        MovedDryRun(arena[bucket[i]].paths, source, fs);
      }
      StopDryRun(arena, bucket, k, source, fs, i + 1);
    }
  }

  /** What the listener hears about one moved path. */
  function EventFor(dest: Path, source: Path, dryRun: bool): Event
  {
    if dryRun then DuplicateFound(dest, source) else Hardlinked(dest, source)
  }

  /** One event per moved path, in order. */
  function Events(moved: seq<Path>, source: Path, dryRun: bool): seq<Event>
  {
    seq(|moved|, j requires 0 <= j < |moved| => EventFor(moved[j], source, dryRun))
  }

  /** Listener calls made by `dedupe` over one bucket. */
  function MergeEvents(arena: seq<FileSet>, bucket: seq<Handle>, dryRun: bool, fs: FileSystem): seq<Event>
    requires HandlesIn(arena, bucket) && Distinct(bucket)
  {
    if Ready(arena, bucket) then Events(Merge(arena, bucket, dryRun, fs).moved, Source(arena, bucket), dryRun)
    else []
  }

  lemma EventsConcat(x: seq<Path>, y: seq<Path>, source: Path, dryRun: bool)
    ensures Events(x + y, source, dryRun) == Events(x, source, dryRun) + Events(y, source, dryRun)
  {
  }

  lemma AppendNothing<T>(x: seq<T>)
    ensures x + [] == x
  {
  }

  lemma AppendAssoc<T>(a: seq<T>, b: seq<T>, c: seq<T>)
    ensures (a + b) + c == a + (b + c)
  {
  }

  /** Replacing an element twice leaves only the second replacement. */
  lemma UpdateTwice<T>(s: seq<T>, i: nat, x: T, y: T)
    requires i < |s|
    ensures s[i := x][i := y] == s[i := y]
  {
  }

  /** Draining one more member takes exactly its share of paths out of the settled arena. */
  lemma SettleDrainTotal(arena: seq<FileSet>, bucket: seq<Handle>, k: nat, e: nat, moved: seq<Path>)
    requires HandlesIn(arena, bucket) && Distinct(bucket) && k < |bucket| && e < |bucket|
    ensures TotalPaths(Settle(arena, bucket, k, e + 1, moved)) + |Share(arena, bucket, k, e)| == TotalPaths(Settle(arena, bucket, k, e, moved))
  {
    if e == k {
      SettleSkip(arena, bucket, k, moved);
    } else {
      var s := Settle(arena, bucket, k, e, moved);
      var h := bucket[e];
      assert h !in bucket[..e];
      assert s[h] == arena[h];
      SettleDrain(arena, bucket, k, e, moved);
      TotalPathsUpdate(s, h, s[h].(paths := []));
    }
  }

  /** Before any member is drained, the settled arena only adds the moved paths to the anchor. */
  lemma SettleStart(arena: seq<FileSet>, bucket: seq<Handle>, k: nat, moved: seq<Path>)
    requires HandlesIn(arena, bucket) && k < |bucket|
    ensures TotalPaths(Settle(arena, bucket, k, 0, moved)) == TotalPaths(arena) + |moved|
  {
    var a := bucket[k];
    assert Settle(arena, bucket, k, 0, moved) == arena[a := arena[a].(paths := arena[a].paths + moved)];
    TotalPathsUpdate(arena, a, arena[a].(paths := arena[a].paths + moved));
  }

  /** The number of paths in the settled arena: the old ones, less the drained members' paths, plus the moved ones. */
  lemma {:induction false} SettleTotal(arena: seq<FileSet>, bucket: seq<Handle>, k: nat, e: nat, moved: seq<Path>)
    requires HandlesIn(arena, bucket) && Distinct(bucket) && k < |bucket| && e <= |bucket|
    ensures TotalPaths(Settle(arena, bucket, k, e, moved)) + |Prior(arena, bucket, k, e)| == TotalPaths(arena) + |moved|
  {
    if e == 0 {
      SettleStart(arena, bucket, k, moved);
    } else {
      var before := TotalPaths(Settle(arena, bucket, k, e - 1, moved));
      var after := TotalPaths(Settle(arena, bucket, k, e, moved));
      assert before + |Prior(arena, bucket, k, e - 1)| == TotalPaths(arena) + |moved| by {
        SettleTotal(arena, bucket, k, e - 1, moved);
      }
      assert after + |Share(arena, bucket, k, e - 1)| == before by {
        SettleDrainTotal(arena, bucket, k, e - 1, moved);
      }
    }
  }

  /** The members a merge drains held exactly the paths it moved followed by the paths it dropped. */
  lemma DrainedHeld(arena: seq<FileSet>, bucket: seq<Handle>, dryRun: bool, fs: FileSystem)
    requires Ready(arena, bucket)
    ensures var f := Failed(arena, bucket, dryRun, fs);
      var e := if f == |bucket| then f else f + 1;
      Prior(arena, bucket, AnchorOf(arena, bucket), e) == Moves(arena, bucket, dryRun, fs) + Drops(arena, bucket, dryRun, fs)
  {
    var k := AnchorOf(arena, bucket);
    var f := Failed(arena, bucket, dryRun, fs);
    var e := if f == |bucket| then f else f + 1;
    var held := Moves(arena, bucket, dryRun, fs) + Drops(arena, bucket, dryRun, fs);
    var rest := Untouched(arena, bucket, dryRun, fs);
    assert held + rest == Duplicates(arena, bucket) by {
      MergeSplitsDuplicates(arena, bucket, dryRun, fs);
    }
    assert Later(arena, bucket, k, e) == rest;
    assert Prior(arena, bucket, k, e) + rest == Duplicates(arena, bucket) by {
      PriorLater(arena, bucket, k, e);
    }
    // Both are the prefix of the duplicates that comes before `rest`.
    assert Prior(arena, bucket, k, e) == Duplicates(arena, bucket)[..|held|] == held;
  }

  /** No path is created or lost unaccounted: the paths the merge drops are exactly those missing from the arena afterwards. */
  lemma MergeConserves(arena: seq<FileSet>, bucket: seq<Handle>, dryRun: bool, fs: FileSystem)
    requires HandlesIn(arena, bucket) && Distinct(bucket)
    ensures var r := Merge(arena, bucket, dryRun, fs);
      TotalPaths(r.arena) + |r.dropped| == TotalPaths(arena)
  {
    if Ready(arena, bucket) {
      var k := AnchorOf(arena, bucket);
      var f := Failed(arena, bucket, dryRun, fs);
      var moved := Moves(arena, bucket, dryRun, fs);
      var e := if f == |bucket| then f else f + 1;
      var after := TotalPaths(Settle(arena, bucket, k, e, moved));
      assert after + |Prior(arena, bucket, k, e)| == TotalPaths(arena) + |moved| by {
        SettleTotal(arena, bucket, k, e, moved);
      }
      assert |Prior(arena, bucket, k, e)| == |moved| + |Drops(arena, bucket, dryRun, fs)| by {
        DrainedHeld(arena, bucket, dryRun, fs);
      }
    }
  }
}

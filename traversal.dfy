/**
 * The directory walk of `flush`: the queue items a directory listing
 * produces, and a weight on the queue that shows the walk ends on a
 * filesystem whose listings join each entry's name onto the directory path.
 */
module Traversal {
  import opened Types
  import opened Ordering

  /** What `add` pushes on the queue for one read_dir result: an item for a directory whose metadata was read, nothing otherwise. */
  function QueuedFor(c: Child): seq<QueueItem>
  {
    match c
    case Entry(p, Some(m)) => if m.kind == Dir then [QueueItem(OrderKey(m.ino), p)] else []
    case _ => []
  }

  /** The queue items pushed while reading all of `cs`, in order. */
  function Queued(cs: seq<Child>): (q: seq<QueueItem>)
    ensures |q| <= |cs|
  {
    if cs == [] then [] else QueuedFor(cs[0]) + Queued(cs[1..])
  }

  /** Every queued item names one of the listed entries, so it is as long as they are. */
  lemma {:induction false} QueuedLonger(cs: seq<Child>, d: Path)
    requires forall c :: c in cs && c.Entry? ==> |c.path| > |d|
    ensures forall t :: 0 <= t < |Queued(cs)| ==> |Queued(cs)[t].path| > |d|
  {
    if cs != [] {
      QueuedLonger(cs[1..], d);
      assert cs[0] in cs;
    }
  }

  /** Listed directories whose path is at least as long as `d`. */
  ghost function Longer(fs: FileSystem, d: Path): set<Path>
  {
    set p | p in fs.listing && |p| >= |d|
  }

  /** An entry of a listed directory has fewer listed directories at least as long as itself. */
  lemma LongerShrinks(fs: FileSystem, d: Path, c: Path)
    requires d in fs.listing && |c| > |d|
    ensures |Longer(fs, c)| < |Longer(fs, d)|
  {
    assert Longer(fs, c) <= Longer(fs, d) - {d};
    assert d in Longer(fs, d);
    SubsetFewer(Longer(fs, c), Longer(fs, d) - {d});
  }

  lemma {:induction false} SubsetFewer<T>(a: set<T>, b: set<T>)
    requires a <= b
    ensures |a| <= |b|
    decreases |b|
  {
    if a != {} {
      var x :| x in a;
      SubsetFewer(a - {x}, b - {x});
    }
  }

  /** Number of directory visits `flush` can still make from `d`, `d` included. */
  ghost function Weight(fs: FileSystem, d: Path): nat
    requires fs.WellFormed()
    decreases |Longer(fs, d)|, 1, 0
  {
    if d !in fs.listing then 1
    else
      QueuedLonger(fs.listing[d], d);
      1 + ItemsWeight(fs, d, Queued(fs.listing[d]))
  }

  /** The weights of the items queued from listed directory `d`. */
  ghost function ItemsWeight(fs: FileSystem, d: Path, items: seq<QueueItem>): nat
    requires fs.WellFormed() && d in fs.listing
    requires forall t :: 0 <= t < |items| ==> |items[t].path| > |d|
    decreases |Longer(fs, d)|, 0, |items|
  {
    if items == [] then 0
    else
      LongerShrinks(fs, d, items[0].path);
      Weight(fs, items[0].path) + ItemsWeight(fs, d, items[1..])
  }

  /** The weight of a whole queue: the visits `flush` can still make. */
  ghost function QueueWeight(fs: FileSystem, q: seq<QueueItem>): nat
    requires fs.WellFormed()
  {
    if q == [] then 0 else Weight(fs, q[0].path) + QueueWeight(fs, q[1..])
  }

  lemma {:induction false} ItemsWeightIsQueueWeight(fs: FileSystem, d: Path, items: seq<QueueItem>)
    requires fs.WellFormed() && d in fs.listing
    requires forall t :: 0 <= t < |items| ==> |items[t].path| > |d|
    ensures ItemsWeight(fs, d, items) == QueueWeight(fs, items)
  {
    if items != [] {
      ItemsWeightIsQueueWeight(fs, d, items[1..]);
    }
  }

  lemma {:induction false} QueueWeightConcat(fs: FileSystem, a: seq<QueueItem>, b: seq<QueueItem>)
    requires fs.WellFormed()
    ensures QueueWeight(fs, a + b) == QueueWeight(fs, a) + QueueWeight(fs, b)
  {
    if a != [] {
      assert (a + b)[1..] == a[1..] + b;
      QueueWeightConcat(fs, a[1..], b);
    } else {
      assert a + b == b;
    }
  }

  /**
   * Visiting a listed directory trades its weight for the weights of the
   * directories its listing queues, which are one less in total.
   */
  lemma VisitLowersWeight(fs: FileSystem, q: seq<QueueItem>, at: nat)
    requires fs.WellFormed() && at < |q| && q[at].path in fs.listing
    ensures QueueWeight(fs, q[..at] + q[at + 1..] + Queued(fs.listing[q[at].path])) < QueueWeight(fs, q)
  {
    var d := q[at].path;
    var items := Queued(fs.listing[d]);
    QueuedLonger(fs.listing[d], d);
    ItemsWeightIsQueueWeight(fs, d, items);
    assert q == q[..at] + ([q[at]] + q[at + 1..]);
    QueueWeightConcat(fs, q[..at], [q[at]] + q[at + 1..]);
    QueueWeightConcat(fs, q[..at], q[at + 1..]);
    QueueWeightConcat(fs, q[..at] + q[at + 1..], items);
  }

  /** Index of the first item with the largest key: the item a pop takes from the queue. */
  function FirstMax(q: seq<QueueItem>): (m: nat)
    requires q != []
    ensures m < |q|
  {
    if |q| == 1 then 0
    else
      var m := FirstMax(q[..|q| - 1]);
      if q[|q| - 1].key > q[m].key then |q| - 1 else m
  }

  /** The popped item has the largest key in the queue, and every item queued before it has a smaller key. */
  lemma {:induction false} FirstMaxIsMax(q: seq<QueueItem>)
    requires q != []
    ensures forall t :: 0 <= t < |q| ==> q[t].key <= q[FirstMax(q)].key
    ensures forall t :: 0 <= t < FirstMax(q) ==> q[t].key < q[FirstMax(q)].key
  {
    if |q| > 1 {
      var init := q[..|q| - 1];
      FirstMaxIsMax(init);
      assert forall t :: 0 <= t < |q| - 1 ==> q[t] == init[t];
    }
  }

  /** Of queued directories keyed by their inode numbers, the one popped has the smallest inode bucket. */
  lemma PopsSmallestBucket(q: seq<QueueItem>, inos: seq<U64>)
    requires q != [] && |inos| == |q|
    requires forall t :: 0 <= t < |q| ==> q[t].key == OrderKey(inos[t])
    ensures forall t :: 0 <= t < |q| ==> inos[FirstMax(q)] / 256 <= inos[t] / 256
  {
    FirstMaxIsMax(q);
    var m := FirstMax(q);
    forall t | 0 <= t < |q|
      ensures inos[m] / 256 <= inos[t] / 256
    {
      KeyOrdersBuckets(inos[t], inos[m]);
    }
  }
}

/**
 * Values shared by the scanner model: directory entries and their metadata,
 * FileSet records, listener events, error outcomes, settings, counters, and the
 * filesystem oracle that stands in for every system call the scanner makes.
 */
module Types {

  type Path = string

  /** Rust's u64: device and inode numbers, and the directory queue's order key. */
  type U64 = x: nat | x <= 0xFFFF_FFFF_FFFF_FFFF

  /** Handle of a FileSet in the scanner's arena (replaces Rc<Mutex<FileSet>>). */
  type Handle = nat

  /** Opaque content fingerprint; only equality is used by the indices. */
  type Fingerprint = int

  datatype Option<T> = None | Some(value: T)

  datatype Kind = Dir | Symlink | Regular | Other

  /** The fields of fs::Metadata that the scanner reads. */
  datatype Metadata = Metadata(
    kind: Kind,
    size: nat,
    blksize: nat,
    dev: U64,
    ino: U64,
    nlink: nat,
    fingerprint: Fingerprint)

  /** (device, inode): the identity of one physical file. */
  datatype InodeId = InodeId(dev: U64, ino: U64)

  /** All known paths of one physical file, with its link count when first seen. */
  datatype FileSet = FileSet(paths: seq<Path>, links: nat) {
    /** FileSet::push: appends a path; the link count is left as it was. */
    function Push(p: Path): FileSet
    {
      this.(paths := paths + [p])
    }
  }

  /** Calls made on the scan listener, in the order (dest, source) the scanner passes them. */
  datatype Event =
    | Hardlinked(dest: Path, source: Path)
    | DuplicateFound(dest: Path, source: Path)

  datatype IoError =
    | CanonicalizeFailed(path: Path)
    | MetadataFailed(path: Path)
    | ReadDirFailed(path: Path)
    | LinkFailed(path: Path)
    | RenameFailed(path: Path)

  /** Reasons the scanner panics instead of returning an error. */
  datatype Abort =
    | EmptyBucket             // `.expect("fileset can't be empty")`
    | AnchorWithoutPaths      // `merged_paths[0]` on an empty path list
    | SourceIsDest(path: Path) // `assert_ne!(source_path, dest_path)`

  datatype Status = Ok | Err(error: IoError) | Panic(abort: Abort)

  datatype Settings = Settings(ignoreSmall: bool, dryRun: bool)

  datatype Stats = Stats(added: nat, skipped: nat, dupes: nat, hardlinks: nat)

  /** One element of the directory queue: (order key, directory path). */
  datatype QueueItem = QueueItem(key: U64, path: Path)

  /** One result of read_dir: an entry that could not be read, or a path with its metadata (None when reading it fails). */
  datatype Child = Unreadable | Entry(path: Path, meta: Option<Metadata>)

  /**
   * The filesystem as the scanner sees it. A path missing from a map is a
   * failing call; linkFails/renameFails name the duplicate paths whose
   * hard_link to the temporary name, or rename onto the duplicate, fails.
   */
  datatype FileSystem = FileSystem(
    canonical: map<Path, Path>,
    meta: map<Path, Metadata>,
    listing: map<Path, seq<Child>>,
    linkFails: set<Path>,
    renameFails: set<Path>)
  {
    /** read_dir joins each entry's name onto the directory path, so a child's path is longer. */
    ghost predicate WellFormed() {
      forall d, c :: d in listing && c in listing[d] && c.Entry? ==> |c.path| > |d|
    }
  }
}

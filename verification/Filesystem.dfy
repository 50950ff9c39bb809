/** Files, directories and their metadata, as `archive/changes.go` and `archive/diff.go` see them.
    A path is the list of its components below the root, so `[]` is the root itself. */
module Filesystem {
  import opened Wrappers

  type Name = string
  type Path = seq<Name>
  type Bytes = seq<bv8>

  datatype Kind = Directory | Regular | Symlink | CharDevice | Fifo

  datatype Timespec = Timespec(sec: int, nsec: nat)

  datatype Stat = Stat(kind: Kind, perm: nat, uid: nat, gid: nat, rdev: bv32, size: nat, mtime: Timespec)

  /** One entry of a disk. `content` is the bytes of a regular file or the target of a symbolic link;
      `capability` is the extended attribute "security.capability". */
  datatype Record = Record(stat: Stat, capability: Option<Bytes>, content: Bytes) {
    predicate IsDir() { stat.kind.Directory? }
  }

  /** Everything below one directory. */
  type Disk = map<Path, Record>

  const SYMLINK_PERM := 0x1ff
  const NSEC_PER_SEC := 1_000_000_000

  function Parent(p: Path): Path
    requires p != []
  {
    p[..|p| - 1]
  }

  function Base(p: Path): Name
    requires p != []
  {
    p[|p| - 1]
  }

  /** What Linux guarantees of one entry: only device nodes have a device number, links have all
      permission bits, the size of a file or link is the length of its content. */
  predicate ValidRecord(r: Record) {
    && r.stat.mtime.nsec < NSEC_PER_SEC
    && (!r.stat.kind.CharDevice? ==> r.stat.rdev == 0)
    && (r.stat.kind.Symlink? ==> r.stat.perm == SYMLINK_PERM)
    && (r.stat.kind.Regular? || r.stat.kind.Symlink? ==> r.stat.size == |r.content|)
    && (!r.stat.kind.Regular? && !r.stat.kind.Symlink? ==> r.content == [])
    && (r.stat.kind.CharDevice? || r.stat.kind.Fifo? ==> r.stat.size == 0)
  }

  /** What can name a directory entry. */
  predicate ValidName(name: Name) {
    name != "" && name != "." && name != ".." && '/' !in name
  }

  predicate ValidPath(p: Path) {
    forall name :: name in p ==> ValidName(name)
  }

  /** A disk is a tree: the root is a directory and every other entry lies in one. */
  ghost predicate ValidDisk(d: Disk) {
    && [] in d && d[[]].IsDir()
    && (forall p :: p in d ==> ValidPath(p) && ValidRecord(d[p]))
    && (forall p :: p in d && p != [] ==> Parent(p) in d && d[Parent(p)].IsDir())
  }

  /** Every proper prefix of a path on a disk is a directory of that disk. */
  lemma {:induction false} PrefixesAreDirs(d: Disk, p: Path, a: Path)
    requires ValidDisk(d) && p in d && a <= p
    ensures a in d
    ensures a != p ==> d[a].IsDir()
    decreases |p|
  {
    if a == p {
    } else {
      assert a <= Parent(p);
      PrefixesAreDirs(d, Parent(p), a);
    }
  }

  /** The same seconds, and the same nanoseconds or no nanoseconds on one side. */
  predicate SameFsTimeSpec(a: Timespec, b: Timespec) {
    a.sec == b.sec && (a.nsec == b.nsec || a.nsec == 0 || b.nsec == 0)
  }

  function CapabilityBytes(c: Option<Bytes>): Bytes {
    if c.Some? then c.value else []
  }

  /** The comparison that decides whether an entry present on both sides was modified. */
  predicate StatDiffers(oldStat: Stat, oldCap: Option<Bytes>, newStat: Stat, newCap: Option<Bytes>) {
    || oldStat.kind != newStat.kind
    || oldStat.perm != newStat.perm
    || oldStat.uid != newStat.uid
    || oldStat.gid != newStat.gid
    || oldStat.rdev != newStat.rdev
    || (oldStat.size != newStat.size && !oldStat.kind.Directory?)
    || !SameFsTimeSpec(oldStat.mtime, newStat.mtime)
    || CapabilityBytes(oldCap) != CapabilityBytes(newCap)
  }

  predicate Differs(old_: Record, new_: Record) {
    StatDiffers(old_.stat, old_.capability, new_.stat, new_.capability)
  }

  /** Device numbers survive the split into major and minor that a tar header carries. */
  function Major(device: bv32): bv32 { (device >> 8) & 0xfff }

  function Minor(device: bv32): bv32 { (device & 0xff) | ((device >> 12) & 0xfff00) }

  function Mkdev(major: bv32, minor: bv32): bv32 {
    ((minor & 0xfff00) << 12) | ((major & 0xfff) << 8) | (minor & 0xff)
  }

  lemma MkdevUndoesSplit(device: bv32)
    ensures Mkdev(Major(device), Minor(device)) == device
  {
  }
}

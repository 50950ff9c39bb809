/** Writing a change list as a layer (`ExportChanges`) and replaying a layer onto a directory
    (`archive/diff.go`, with `addTarFile` and `createTarFile` of `archive/archive.go`). */
module Layers {
  import opened Wrappers
  import opened Filesystem
  import opened Changes

  /** A tar header with the data that follows it. Times have lost their nanoseconds. */
  datatype Header = Header(name: Path, kind: Kind, perm: nat, uid: nat, gid: nat, sec: int,
                           major: bv32, minor: bv32, xattr: Option<Bytes>, data: Bytes)

  /** What the host contributes: the clock during the replay and the size of a new directory. */
  datatype Host = Host(now: Timespec, dirSize: nat)

  const WHITEOUT_PREFIX := ".wh."
  const AUFS_PREFIX := ".wh..wh."
  const MAX_TAR_SEC := 0x1_ffff_ffff
  const PARENT_PERM := 0x180

  predicate HasPrefix(s: string, prefix: string) {
    prefix <= s
  }

  /** A time outside the range of the format is written as zero. */
  predicate InTarRange(t: Timespec) {
    0 <= t.sec && (t.sec < MAX_TAR_SEC || (t.sec == MAX_TAR_SEC && t.nsec == 0))
  }

  function TarSeconds(t: Timespec): int {
    if InTarRange(t) then t.sec else 0
  }

  function FileHeader(p: Path, r: Record): Header {
    Header(p, r.stat.kind, r.stat.perm, r.stat.uid, r.stat.gid, TarSeconds(r.stat.mtime),
           Major(r.stat.rdev), Minor(r.stat.rdev), r.capability, r.content)
  }

  /** The marker beside a deleted path; for the root itself it is the bare prefix. */
  function WhiteoutHeader(p: Path, sec: int): Header {
    var name := if p == [] then [WHITEOUT_PREFIX] else Parent(p) + [WHITEOUT_PREFIX + Base(p)];
    Header(name, Regular, 0, 0, 0, sec, 0, 0, None, [])
  }

  /** The headers written for one change: none when the file has vanished. */
  function HeadersFor(d: Disk, c: Change, sec: int): seq<Header> {
    if c.kind.Delete? then [WhiteoutHeader(c.path, sec)]
    else if c.path in d then [FileHeader(c.path, d[c.path])]
    else []
  }

  function Exported(d: Disk, changes: seq<Change>, sec: int): seq<Header> {
    if changes == [] then []
    else Exported(d, changes[..|changes| - 1], sec) + HeadersFor(d, changes[|changes| - 1], sec)
  }

  method ExportChanges(dir: Disk, changes: seq<Change>, sec: int) returns (layer: seq<Header>)
    ensures layer == Exported(dir, changes, sec)
  {
    layer := [];
    for i := 0 to |changes|
      invariant layer == Exported(dir, changes[..i], sec)
    {
      var change := changes[i];
      assert changes[..i + 1][..i] == changes[..i];
      if change.kind.Delete? {
        layer := layer + [WhiteoutHeader(change.path, sec)];
      } else if change.path in dir {
        layer := layer + [FileHeader(change.path, dir[change.path])];
      }
    }
    assert changes[..|changes|] == changes;
  }

  // ---------------------------------------------------------------- system calls on a disk

  /** Creating or removing an entry changes the modification time of the directory that holds it. */
  function Touch(d: Disk, p: Path, now: Timespec): Disk {
    if p != [] && Parent(p) in d
    then d[Parent(p) := d[Parent(p)].(stat := d[Parent(p)].stat.(mtime := now))]
    else d
  }

  function Without(d: Disk, p: Path): Disk {
    map q | q in d && !(p <= q) :: d[q]
  }

  function RemoveAll(d: Disk, p: Path, host: Host): Disk {
    if p in d then Touch(Without(d, p), p, host.now) else d
  }

  /** Some proper prefix exists and is not a directory, so the path cannot even be looked up. */
  predicate Blocked(d: Disk, p: Path) {
    exists k :: 0 <= k < |p| && p[..k] in d && !d[p[..k]].IsDir()
  }

  function NewDir(perm: nat, host: Host): Record {
    Record(Stat(Directory, perm, 0, 0, 0, host.dirSize, host.now), None, [])
  }

  predicate CanCreate(d: Disk, p: Path) {
    p !in d && (p != [] ==> Parent(p) in d && d[Parent(p)].IsDir())
  }

  /** `os.MkdirAll`; no result when a prefix is not a directory. */
  function MkdirAll(d: Disk, p: Path, host: Host): Option<Disk>
    decreases |p|
  {
    if p in d then if d[p].IsDir() then Some(d) else None
    else if p == [] then Some(d[p := NewDir(PARENT_PERM, host)])
    else
      var up := MkdirAll(d, Parent(p), host);
      if up.Some? && CanCreate(up.value, p)
      then Some(Touch(up.value[p := NewDir(PARENT_PERM, host)], p, host.now)) else None
  }

  // ---------------------------------------------------------------- replay

  /** What a regular file holds after a write from its start: it is not cut to length first. */
  function Overwritten(old_: Bytes, data: Bytes): Bytes {
    if |old_| <= |data| then data else data + old_[|data|..]
  }

  /** `createTarFile`: a directory that exists is kept and only its metadata is set, a regular file that
      exists is written over, and anything else is created. An attribute of a directory that the header does
      not carry is left as it was; that of a file is lost with the write. */
  function CreatedRecord(old_: Option<Record>, h: Header, host: Host): Record {
    var capability := if h.xattr.Some? then h.xattr
                      else if old_.Some? && h.kind.Directory? then old_.value.capability
                      else None;
    var content := if h.kind.Regular? && old_.Some? then Overwritten(old_.value.content, h.data)
                   else if h.kind.Regular? || h.kind.Symlink? then h.data
                   else [];
    var size := if h.kind.Directory? then (if old_.Some? then old_.value.stat.size else host.dirSize) else |content|;
    var perm := if h.kind.Symlink? then SYMLINK_PERM else h.perm;
    var rdev := if h.kind.CharDevice? then Mkdev(h.major, h.minor) else 0;
    Record(Stat(h.kind, perm, h.uid, h.gid, rdev, size, Timespec(h.sec, 0)), capability, content)
  }

  /** Directories are merged and regular files are written over; nothing else can be created where it exists. */
  predicate Accepts(existing: Record, h: Header) {
    h.kind == existing.stat.kind && (h.kind.Directory? || h.kind.Regular?)
  }

  function CreateTarFile(d: Disk, h: Header, host: Host): Option<Disk> {
    if h.name in d && Accepts(d[h.name], h) then
      Some(d[h.name := CreatedRecord(Some(d[h.name]), h, host)])
    else if CanCreate(d, h.name) then
      Some(Touch(d[h.name := CreatedRecord(None, h, host)], h.name, host.now))
    else None
  }

  /** The path a whiteout removes. A bare marker names its own directory, and dots resolve. Two dots at the top
      name what holds the root: all of the disk goes with it, and what lies outside is not modelled. */
  function WhiteoutTarget(p: Path): Path
    requires p != [] && HasPrefix(Base(p), WHITEOUT_PREFIX)
  {
    var original := Base(p)[|WHITEOUT_PREFIX|..];
    if original == "" || original == "." then Parent(p)
    else if original == ".." then if Parent(p) == [] then [] else Parent(Parent(p))
    else Parent(p) + [original]
  }

  /** The directory under replay, the directory headers seen, and whether a call has failed. */
  datatype Replay = Replay(disk: Disk, dirs: seq<Header>, failed: bool)

  predicate IsAufsMetadata(p: Path) {
    p != [] && HasPrefix(p[0], AUFS_PREFIX)
  }

  /** First step for a header: its parent directory exists afterwards, unless it is blocked. */
  function EnsureParent(d: Disk, p: Path, host: Host): Option<Disk> {
    if p == [] || Parent(p) in d || Blocked(d, Parent(p)) then Some(d) else MkdirAll(d, Parent(p), host)
  }

  /** Second step: remove what the header hides or replaces, then create. */
  function Place(d: Disk, h: Header, host: Host): Option<Disk> {
    if h.name in d && !(d[h.name].IsDir() && h.kind.Directory?)
    then CreateTarFile(RemoveAll(d, h.name, host), h, host)
    else CreateTarFile(d, h, host)
  }

  function Step(s: Replay, h: Header, host: Host): Replay {
    var parent := EnsureParent(s.disk, h.name, host);
    if parent.None? then s.(failed := true)
    else if IsAufsMetadata(h.name) then s.(disk := parent.value)
    else if h.name != [] && HasPrefix(Base(h.name), WHITEOUT_PREFIX) then
      s.(disk := RemoveAll(parent.value, WhiteoutTarget(h.name), host))
    else
      var placed := Place(parent.value, h, host);
      if placed.None? then s.(failed := true)
      else Replay(placed.value, if h.kind.Directory? then s.dirs + [h] else s.dirs, false)
  }

  function Replayed(d: Disk, layer: seq<Header>, host: Host): Replay {
    if layer == [] then Replay(d, [], false)
    else
      var s := Replayed(d, layer[..|layer| - 1], host);
      if s.failed then s else Step(s, layer[|layer| - 1], host)
  }

  /** The last pass: directory times are set again, in the order of the headers. */
  function Timed(d: Disk, dirs: seq<Header>): Option<Disk> {
    if dirs == [] then Some(d)
    else
      var t := Timed(d, dirs[..|dirs| - 1]);
      var h := dirs[|dirs| - 1];
      if t.None? || h.name !in t.value then None
      else Some(t.value[h.name := t.value[h.name].(stat := t.value[h.name].stat.(mtime := Timespec(h.sec, 0)))])
  }

  function Applied(d: Disk, layer: seq<Header>, host: Host): Option<Disk> {
    var s := Replayed(d, layer, host);
    if s.failed then None else Timed(s.disk, s.dirs)
  }

  // ---------------------------------------------------------------- what the two calls mean

  function AtTime(r: Record, t: Timespec): Record {
    r.(stat := r.stat.(mtime := t))
  }

  /** Nothing exists on the way from `q` down to `p`. */
  ghost predicate Missing(d: Disk, p: Path, q: Path) {
    q <= p && forall k :: |q| <= k <= |p| ==> p[..k] !in d
  }

  /** The lowest entry on the way down to `p`. */
  ghost predicate Lowest(d: Disk, p: Path, q: Path) {
    q <= p && q in d && forall k :: |q| < k <= |p| ==> p[..k] !in d
  }

  ghost predicate CanMake(d: Disk, p: Path) {
    forall q :: Lowest(d, p, q) ==> d[q].IsDir()
  }

  /** One entry after the missing directories down to `p` are made. */
  ghost predicate MadeAt(d: Disk, p: Path, after: Disk, q: Path, host: Host) {
    && (q in after <==> q in d || Missing(d, p, q))
    && (Missing(d, p, q) ==> q in after && after[q] == NewDir(PARENT_PERM, host))
    && (q in d ==> q in after && after[q] == if Lowest(d, p, q) && q != p then AtTime(d[q], host.now) else d[q])
  }

  ghost predicate Made(d: Disk, p: Path, after: Disk, host: Host) {
    p in after && after[p].IsDir() && forall q :: MadeAt(d, p, after, q, host)
  }

  /** `os.MkdirAll` succeeds exactly when the lowest existing entry is a directory; it adds the missing
      directories, touches that one, and leaves all other entries as they were. */
  lemma {:induction false} MkdirAllMakes(d: Disk, p: Path, host: Host)
    ensures MkdirAll(d, p, host).Some? <==> CanMake(d, p)
    ensures MkdirAll(d, p, host).Some? ==> Made(d, p, MkdirAll(d, p, host).value, host)
    decreases |p|
  {
    if p in d {
      LowestIsItself(d, p);
    } else if p == [] {
    } else {
      var up := MkdirAll(d, Parent(p), host);
      MkdirAllMakes(d, Parent(p), host);
      forall q {
        StepDown(d, p, q);
      }
      if up.Some? {
        var made := Touch(up.value[p := NewDir(PARENT_PERM, host)], p, host.now);
        assert MadeAt(d, Parent(p), up.value, p, host);
        forall q
          ensures MadeAt(d, p, made, q, host)
        {
          MadeOneMore(d, p, up.value, q, host);
        }
      }
    }
  }

  lemma LowestIsItself(d: Disk, p: Path)
    requires p in d
    ensures forall q :: Lowest(d, p, q) <==> q == p
    ensures forall q :: !Missing(d, p, q)
  {
    assert p[..|p|] == p;
  }

  lemma StepDown(d: Disk, p: Path, q: Path)
    requires p != [] && p !in d
    ensures Lowest(d, p, q) <==> Lowest(d, Parent(p), q)
    ensures Missing(d, p, q) <==> q == p || Missing(d, Parent(p), q)
  {
    assert p[..|p|] == p;
    assert forall k :: 0 <= k < |p| ==> Parent(p)[..k] == p[..k];
    if q <= p && q != p {
      assert q <= Parent(p);
    }
  }

  lemma MadeOneMore(d: Disk, p: Path, up: Disk, q: Path, host: Host)
    requires p != [] && p !in d && p !in up && Made(d, Parent(p), up, host)
    ensures MadeAt(d, p, Touch(up[p := NewDir(PARENT_PERM, host)], p, host.now), q, host)
  {
    StepDown(d, p, q);
    assert MadeAt(d, Parent(p), up, q, host);
  }

  /** A header that describes what it creates: its time fits the format, and it carries nothing that the
      kind of entry does not have. */
  predicate Describes(h: Header) {
    && InTarRange(Timespec(h.sec, 0))
    && (h.kind.Symlink? ==> h.perm == SYMLINK_PERM)
    && (!h.kind.Regular? && !h.kind.Symlink? ==> h.data == [])
    && (if h.kind.CharDevice? then DeviceFits(h.major, h.minor) else h.major == 0 && h.minor == 0)
  }

  predicate DeviceFits(major: bv32, minor: bv32) {
    major <= 0xfff && minor <= 0xfffff
  }

  lemma DeviceNumberHolds(major: bv32, minor: bv32)
    ensures Major(Mkdev(major, minor)) == major && Minor(Mkdev(major, minor)) == minor <==> DeviceFits(major, minor)
    ensures Major(0) == 0 && Minor(0) == 0
  {
  }

  /** The header of a record, field by field. */
  lemma HeaderIs(h: Header, r: Record)
    ensures FileHeader(h.name, r) == h <==>
            && r.stat.kind == h.kind && r.stat.perm == h.perm && r.stat.uid == h.uid && r.stat.gid == h.gid
            && TarSeconds(r.stat.mtime) == h.sec && r.capability == h.xattr && r.content == h.data
            && Major(r.stat.rdev) == h.major && Minor(r.stat.rdev) == h.minor
  {
  }

  /** What was there is replaced: a directory had no capability that the header lacks, and a regular file was
      no longer than the new one. */
  predicate Covers(h: Header, old_: Record) {
    && (h.kind.Directory? && h.xattr.None? ==> old_.capability.None?)
    && (h.kind.Regular? ==> |old_.content| <= |h.data|)
  }

  /** Exporting what a header created gives the header back, exactly when it describes it and covers what was
      there, if anything. */
  lemma ExportUndoesCreate(old_: Option<Record>, h: Header, host: Host)
    ensures FileHeader(h.name, CreatedRecord(old_, h, host)) == h
            <==> Describes(h) && (old_.Some? ==> Covers(h, old_.value))
  {
    HeaderIs(h, CreatedRecord(old_, h, host));
    DeviceNumberHolds(h.major, h.minor);
  }

  /** Nothing but the entry at `p` and, when that is new, the time of its directory has changed. */
  ghost predicate SameAt(d: Disk, after: Disk, p: Path, q: Path, now: Timespec) {
    && (q in after <==> q in d)
    && (q in d && q in after ==>
          after[q] == if p != [] && q == Parent(p) && p !in d then AtTime(d[q], now) else d[q])
  }

  ghost predicate OnlyAt(d: Disk, after: Disk, p: Path, now: Timespec) {
    p in after && forall q :: q != p ==> SameAt(d, after, p, q, now)
  }

  ghost predicate HasRoom(d: Disk, h: Header) {
    if h.name in d then Accepts(d[h.name], h)
    else h.name != [] ==> Parent(h.name) in d && d[Parent(h.name)].IsDir()
  }

  lemma CreateTarFilePuts(d: Disk, h: Header, host: Host)
    ensures CreateTarFile(d, h, host).Some? <==> HasRoom(d, h)
    ensures var after := CreateTarFile(d, h, host);
            after.Some? ==> OnlyAt(d, after.value, h.name, host.now)
    ensures var after := CreateTarFile(d, h, host);
            after.Some? && h.name in after.value ==>
              (FileHeader(h.name, after.value[h.name]) == h <==>
               Describes(h) && (h.name in d ==> Covers(h, d[h.name])))
  {
    ExportUndoesCreate(if h.name in d then Some(d[h.name]) else None, h, host);
    if h.name != [] {
      assert |Parent(h.name)| < |h.name|;
    }
  }

  /** The destination directory, changed in place by a replay. */
  class Destination {
    var disk: Disk
    const host: Host

    constructor (disk: Disk, host: Host)
      ensures this.disk == disk && this.host == host
    {
      this.disk := disk;
      this.host := host;
    }

    /** `os.MkdirAll` down to `p`, creating the missing directories from the top. */
    method MkdirAllAt(p: Path) returns (ok: bool)
      modifies this
      ensures ok == MkdirAll(old(disk), p, host).Some?
      ensures ok ==> disk == MkdirAll(old(disk), p, host).value
      ensures ok <==> CanMake(old(disk), p)
      ensures if ok then Made(old(disk), p, disk, host) else disk == old(disk)
      decreases |p|
    {
      MkdirAllMakes(disk, p, host);
      if p in disk {
        return disk[p].IsDir();
      }
      if p == [] {
        disk := disk[p := NewDir(PARENT_PERM, host)];
        return true;
      }
      ok := MkdirAllAt(Parent(p));
      if ok {
        assert MadeAt(old(disk), Parent(p), disk, p, host);
      }
      if ok && CanCreate(disk, p) {
        disk := Touch(disk[p := NewDir(PARENT_PERM, host)], p, host.now);
      } else {
        ok := false;
      }
    }

    /** `createTarFile`: writing the entry out again would give the header back, exactly when the header
        describes it and covers what was there; no other entry changes. */
    method CreateTarFileAt(h: Header) returns (ok: bool)
      modifies this
      ensures ok == CreateTarFile(old(disk), h, host).Some?
      ensures ok ==> disk == CreateTarFile(old(disk), h, host).value
      ensures ok <==> HasRoom(old(disk), h)
      ensures if ok then OnlyAt(old(disk), disk, h.name, host.now) else disk == old(disk)
      ensures ok && h.name in disk ==>
                (FileHeader(h.name, disk[h.name]) == h <==>
                 Describes(h) && (h.name in old(disk) ==> Covers(h, old(disk)[h.name])))
    {
      CreateTarFilePuts(disk, h, host);
      if h.name in disk && Accepts(disk[h.name], h) {
        disk := disk[h.name := CreatedRecord(Some(disk[h.name]), h, host)];
        ok := true;
      } else if CanCreate(disk, h.name) {
        disk := Touch(disk[h.name := CreatedRecord(None, h, host)], h.name, host.now);
        ok := true;
      } else {
        ok := false;
      }
    }

    /** One entry: its parent directory, what it hides or replaces, and the entry itself. */
    method ApplyEntry(hdr: Header, ghost dirs: seq<Header>) returns (ok: bool, isDir: bool)
      modifies this
      ensures var s := Step(Replay(old(disk), dirs, false), hdr, host);
              if ok then s == Replay(disk, if isDir then dirs + [hdr] else dirs, false) else s.failed
    {
      isDir := false;
      if hdr.name != [] && Parent(hdr.name) !in disk && !Blocked(disk, Parent(hdr.name)) {
        ok := MkdirAllAt(Parent(hdr.name));
        if !ok {
          return;
        }
      }
      if IsAufsMetadata(hdr.name) {
        return true, false;
      }
      if hdr.name != [] && HasPrefix(Base(hdr.name), WHITEOUT_PREFIX) {
        disk := RemoveAll(disk, WhiteoutTarget(hdr.name), host);
        return true, false;
      }
      if hdr.name in disk && !(disk[hdr.name].IsDir() && hdr.kind.Directory?) {
        disk := RemoveAll(disk, hdr.name, host);
      }
      ok := CreateTarFileAt(hdr);
      isDir := hdr.kind.Directory?;
    }

    /** The last loop of `ApplyLayer`. */
    method SetTimes(dirs: seq<Header>) returns (ok: bool)
      modifies this
      ensures ok == Timed(old(disk), dirs).Some?
      ensures ok ==> disk == Timed(old(disk), dirs).value
    {
      for i := 0 to |dirs|
        invariant Timed(old(disk), dirs[..i]) == Some(disk)
      {
        var hdr := dirs[i];
        assert dirs[..i + 1][..i] == dirs[..i];
        TimingFailureSticks(old(disk), dirs, i + 1);
        if hdr.name !in disk {
          return false;
        }
        disk := disk[hdr.name := disk[hdr.name].(stat := disk[hdr.name].stat.(mtime := Timespec(hdr.sec, 0)))];
      }
      assert dirs[..|dirs|] == dirs;
      return true;
    }

    /** `ApplyLayer`: entries in order, then the times of the directories among them. */
    method ApplyLayer(layer: seq<Header>) returns (ok: bool)
      modifies this
      ensures ok == Applied(old(disk), layer, host).Some?
      ensures ok ==> disk == Applied(old(disk), layer, host).value
    {
      var dirs: seq<Header> := [];
      for i := 0 to |layer|
        invariant Replayed(old(disk), layer[..i], host) == Replay(disk, dirs, false)
      {
        assert layer[..i + 1][..i] == layer[..i];
        assert Replayed(old(disk), layer[..i + 1], host) == Step(Replay(disk, dirs, false), layer[i], host);
        FailureSticks(old(disk), layer, i + 1, host);
        var isDir;
        ok, isDir := ApplyEntry(layer[i], dirs);
        if !ok {
          return;
        }
        if isDir {
          dirs := dirs + [layer[i]];
        }
      }
      assert layer[..|layer|] == layer;
      ok := SetTimes(dirs);
    }
  }

  lemma {:induction false} FailureSticks(d: Disk, layer: seq<Header>, k: nat, host: Host)
    requires k <= |layer|
    ensures Replayed(d, layer[..k], host).failed ==> Replayed(d, layer, host).failed
    decreases |layer|
  {
    if k < |layer| {
      FailureSticks(d, layer[..|layer| - 1], k, host);
      assert layer[..|layer| - 1][..k] == layer[..k];
    } else {
      assert layer[..k] == layer;
    }
  }

  lemma {:induction false} TimingFailureSticks(d: Disk, dirs: seq<Header>, k: nat)
    requires k <= |dirs|
    ensures Timed(d, dirs[..k]).None? ==> Timed(d, dirs).None?
    decreases |dirs|
  {
    if k < |dirs| {
      TimingFailureSticks(d, dirs[..|dirs| - 1], k);
      assert dirs[..|dirs| - 1][..k] == dirs[..k];
    } else {
      assert dirs[..k] == dirs;
    }
  }
}

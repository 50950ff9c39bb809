/** The law that the tests of the archive package state: after replaying a layer, comparing the
    result with the directory the layer was made from reports nothing. When it holds, and why. */
module Faithful {
  import opened Wrappers
  import opened Filesystem
  import opened Changes
  import opened ChangesDirs
  import opened Layers
  import opened RoundTrip

  /** An entry is created or removed directly inside directory `p` by the replay. */
  ghost predicate Disturbed(newDisk: Disk, oldDisk: Disk, p: Path) {
    exists c :: Expected(newDisk, oldDisk, c).Some? && c != [] && Parent(c) == p && !BothDirs(newDisk, oldDisk, c)
  }

  /** The record that a replay leaves at `p`. */
  ghost function Outcome(newDisk: Disk, oldDisk: Disk, p: Path, host: Host): Record
    requires p in newDisk && (p in oldDisk || p != [])
  {
    if Expected(newDisk, oldDisk, p).Some? then Carried(newDisk, oldDisk, p, host)
    else if Disturbed(newDisk, oldDisk, p) then AtTime(oldDisk[p], host.now)
    else oldDisk[p]
  }

  lemma PathsAreEntries(newDisk: Disk, oldDisk: Disk, cs: seq<Change>, p: Path)
    requires IsChangeList(cs, newDisk, oldDisk)
    ensures p in Paths(cs) <==> Expected(newDisk, oldDisk, p).Some?
  {
    if Expected(newDisk, oldDisk, p).Some? {
      assert Change(p, Expected(newDisk, oldDisk, p).value).path in Paths(cs);
    }
  }

  /** An old path that is not in the new tree is cleared by the entry of some prefix. */
  lemma {:induction false} StaleIsGone(newDisk: Disk, oldDisk: Disk, cs: seq<Change>, p: Path, a: Path)
    requires ValidDisk(newDisk) && ValidDisk(oldDisk) && IsChangeList(cs, newDisk, oldDisk)
    requires p in oldDisk && a <= p && a !in newDisk
    ensures Gone(newDisk, oldDisk, Paths(cs), p)
    decreases |a|
  {
    PrefixesAreDirs(oldDisk, p, a);
    var up := Parent(a);
    assert up <= p;
    if up !in newDisk {
      StaleIsGone(newDisk, oldDisk, cs, p, up);
    } else if up == [] || newDisk[up].IsDir() {
      PathsAreEntries(newDisk, oldDisk, cs, a);
    } else {
      PathsAreEntries(newDisk, oldDisk, cs, up);
    }
  }

  lemma KeptIsNotGone(newDisk: Disk, oldDisk: Disk, cs: seq<Change>, p: Path)
    requires ValidDisk(newDisk) && ValidDisk(oldDisk) && IsChangeList(cs, newDisk, oldDisk)
    requires p in newDisk && p in oldDisk && p !in Paths(cs)
    ensures !Gone(newDisk, oldDisk, Paths(cs), p)
  {
    if Gone(newDisk, oldDisk, Paths(cs), p) {
      var a :| a in Paths(cs) && a <= p && (a !in newDisk || (a != p && !BothDirs(newDisk, oldDisk, a)));
      PrefixesAreDirs(newDisk, p, a);
      CommonPrefix(newDisk, oldDisk, p, a);
    }
  }

  lemma TouchedIsDisturbed(newDisk: Disk, oldDisk: Disk, cs: seq<Change>, p: Path)
    requires IsChangeList(cs, newDisk, oldDisk)
    ensures Touched(newDisk, oldDisk, Paths(cs), p) == Disturbed(newDisk, oldDisk, p)
  {
    forall c { PathsAreEntries(newDisk, oldDisk, cs, c); }
  }

  lemma OutcomeAt(d: Disk, newDisk: Disk, oldDisk: Disk, cs: seq<Change>, host: Host, p: Path)
    requires ValidDisk(newDisk) && ValidDisk(oldDisk) && IsChangeList(cs, newDisk, oldDisk)
    requires AllHalfway(d, newDisk, oldDisk, Paths(cs), host)
    ensures p in d <==> p in newDisk
    ensures p in d ==>
      (if p in Paths(cs) && newDisk[p].IsDir()
       then AtTime(d[p], Timespec(TarSeconds(newDisk[p].stat.mtime), 0)) else d[p])
      == Outcome(newDisk, oldDisk, p, host)
  {
    assert Halfway(d, newDisk, oldDisk, Paths(cs), host, p);
    PathsAreEntries(newDisk, oldDisk, cs, p);
    TouchedIsDisturbed(newDisk, oldDisk, cs, p);
    if p !in newDisk && p in oldDisk {
      StaleIsGone(newDisk, oldDisk, cs, p, p);
    }
    if p in newDisk && p in oldDisk && p !in Paths(cs) {
      KeptIsNotGone(newDisk, oldDisk, cs, p);
    }
  }

  /** Replaying the exported change list succeeds, and this is what it leaves. */
  lemma ReplayOutcome(newDisk: Disk, oldDisk: Disk, cs: seq<Change>, host: Host, sec: int) returns (result: Disk)
    requires ValidDisk(newDisk) && ValidDisk(oldDisk) && IsChangeList(cs, newDisk, oldDisk)
    requires forall c :: c in cs ==> Portable(c)
    ensures Applied(oldDisk, Exported(newDisk, cs, sec), host) == Some(result)
    ensures result.Keys == newDisk.Keys
    ensures forall p :: p in newDisk ==> result[p] == Outcome(newDisk, oldDisk, p, host)
  {
    assert cs[..|cs|] == cs;
    var d := ReplayPrefix(newDisk, oldDisk, cs, |cs|, host, sec);
    forall p ensures p in d <==> p in newDisk {
      OutcomeAt(d, newDisk, oldDisk, cs, host, p);
    }
    TimedAt(d, newDisk, cs, []);
    result := Timed(d, DirHeaders(newDisk, cs)).value;
    forall p | p in newDisk ensures result[p] == Outcome(newDisk, oldDisk, p, host) {
      TimedAt(d, newDisk, cs, p);
      OutcomeAt(d, newDisk, oldDisk, cs, host, p);
    }
  }

  /** Equal metadata means equal content: nobody hid a change by setting back a time. */
  ghost predicate Honest(newDisk: Disk, oldDisk: Disk) {
    forall p :: p in newDisk && p in oldDisk && p != [] && !Differs(oldDisk[p], newDisk[p]) ==>
      oldDisk[p].content == newDisk[p].content
  }

  /** The metadata of `p` survives: its time fits the format, a directory that loses its capability
      did not have one, and a directory without an entry is not disturbed (or shows the same time). */
  ghost predicate KeepsMetadata(newDisk: Disk, oldDisk: Disk, p: Path, host: Host)
    requires p in newDisk
  {
    && (Expected(newDisk, oldDisk, p).Some? ==>
          && InTarRange(newDisk[p].stat.mtime)
          && !(BothDirs(newDisk, oldDisk, p) && newDisk[p].capability.None? &&
               CapabilityBytes(oldDisk[p].capability) != []))
    && (Expected(newDisk, oldDisk, p).None? && Disturbed(newDisk, oldDisk, p) ==>
          SameFsTimeSpec(host.now, newDisk[p].stat.mtime))
  }

  lemma OutcomeDiffers(newDisk: Disk, oldDisk: Disk, p: Path, host: Host)
    requires ValidDisk(newDisk) && ValidDisk(oldDisk) && p in newDisk && p != []
    ensures !Differs(newDisk[p], Outcome(newDisk, oldDisk, p, host)) <==> KeepsMetadata(newDisk, oldDisk, p, host)
    ensures Honest(newDisk, oldDisk) ==> Outcome(newDisk, oldDisk, p, host).content == newDisk[p].content
    ensures Outcome(newDisk, oldDisk, p, host).stat.kind == newDisk[p].stat.kind
  {
    MkdevUndoesSplit(newDisk[p].stat.rdev);
  }

  /** The law: the replay yields the new directory's paths, kinds and contents, and comparing it
      with the new directory reports no change exactly when every entry keeps its metadata. */
  lemma ReapplyLaw(newDisk: Disk, oldDisk: Disk, cs: seq<Change>, host: Host, sec: int) returns (result: Disk)
    requires ValidDisk(newDisk) && ValidDisk(oldDisk) && IsChangeList(cs, newDisk, oldDisk)
    requires forall c :: c in cs ==> Portable(c)
    ensures Applied(oldDisk, Exported(newDisk, cs, sec), host) == Some(result)
    ensures result.Keys == newDisk.Keys
    ensures forall p :: p in newDisk ==> result[p] == Outcome(newDisk, oldDisk, p, host)
    ensures forall p :: p in newDisk && p != [] ==> result[p].stat.kind == newDisk[p].stat.kind
    ensures Honest(newDisk, oldDisk) ==> forall p :: p in newDisk && p != [] ==> result[p].content == newDisk[p].content
    ensures forall again :: IsChangeList(again, result, newDisk) ==>
              (again == [] <==> forall p :: p in newDisk && p != [] ==> KeepsMetadata(newDisk, oldDisk, p, host))
  {
    result := ReplayOutcome(newDisk, oldDisk, cs, host, sec);
    forall p | p in newDisk && p != []
      ensures Honest(newDisk, oldDisk) ==> result[p].content == newDisk[p].content
      ensures result[p].stat.kind == newDisk[p].stat.kind
      ensures Expected(result, newDisk, p).None? <==> KeepsMetadata(newDisk, oldDisk, p, host)
    {
      OutcomeDiffers(newDisk, oldDisk, p, host);
    }
    forall again | IsChangeList(again, result, newDisk)
      ensures again == [] <==> forall p :: p in newDisk && p != [] ==> KeepsMetadata(newDisk, oldDisk, p, host)
    {
      EmptyIfNoneExpected(again, result, newDisk);
    }
  }

  /** A change list is empty exactly when no entry of the new directory differs. */
  lemma EmptyIfNoneExpected(cs: seq<Change>, newDisk: Disk, oldDisk: Disk)
    requires IsChangeList(cs, newDisk, oldDisk) && newDisk.Keys == oldDisk.Keys
    ensures cs == [] <==> forall p :: p in newDisk && p != [] ==> Expected(newDisk, oldDisk, p).None?
  {
    if cs != [] {
      assert cs[0] in cs;
      assert Expected(newDisk, oldDisk, cs[0].path).Some?;
    }
  }

  lemma OutcomeIsValid(newDisk: Disk, oldDisk: Disk, host: Host, p: Path)
    requires ValidDisk(newDisk) && ValidDisk(oldDisk) && host.now.nsec < NSEC_PER_SEC
    requires p in newDisk
    ensures ValidRecord(Outcome(newDisk, oldDisk, p, host))
    ensures Outcome(newDisk, oldDisk, p, host).stat.kind == newDisk[p].stat.kind
  {
    if p != [] {
      OutcomeDiffers(newDisk, oldDisk, p, host);
    }
  }

  /** The replay leaves a well-formed directory again. */
  lemma ResultIsValid(newDisk: Disk, oldDisk: Disk, host: Host, result: Disk)
    requires ValidDisk(newDisk) && ValidDisk(oldDisk) && host.now.nsec < NSEC_PER_SEC
    requires result.Keys == newDisk.Keys
    requires forall p :: p in newDisk ==> result[p] == Outcome(newDisk, oldDisk, p, host)
    ensures ValidDisk(result)
  {
    forall p | p in newDisk
      ensures ValidRecord(result[p]) && result[p].IsDir() == newDisk[p].IsDir()
    {
      OutcomeIsValid(newDisk, oldDisk, host, p);
    }
    assert forall p :: p in result <==> p in newDisk;
  }

  /** No component of any path starts like a marker. */
  ghost predicate NoMarkers(d: Disk) {
    forall p, name :: p in d && name in p ==> !HasPrefix(name, WHITEOUT_PREFIX)
  }

  /** Trees without marker names can always be carried. */
  lemma NoMarkersPortable(newDisk: Disk, oldDisk: Disk, cs: seq<Change>)
    requires NoMarkers(newDisk) && NoMarkers(oldDisk) && IsChangeList(cs, newDisk, oldDisk)
    ensures forall c :: c in cs ==> Portable(c)
  {
    forall c | c in cs
      ensures Portable(c)
    {
      assert c.path != [] && (c.path in newDisk || c.path in oldDisk);
      assert Base(c.path) in c.path && c.path[0] in c.path;
      assert WHITEOUT_PREFIX <= AUFS_PREFIX;
    }
  }

  // ---------------------------------------------------------------- where the law fails

  const PLAIN_DIR := Record(Stat(Directory, 0x1ed, 0, 0, 0, 0, Timespec(100, 0)), None, [])

  function PlainFile(content: Bytes, sec: int): Record {
    Record(Stat(Regular, 0x1a4, 0, 0, 0, |content|, Timespec(sec, 0)), None, content)
  }

  function FileInDir(f: Record): Disk {
    map[[] := PLAIN_DIR, ["etc"] := PLAIN_DIR, ["etc", "hosts"] := f]
  }

  lemma FileInDirIsValid(f: Record)
    requires f.stat.kind.Regular? && ValidRecord(f)
    ensures ValidDisk(FileInDir(f))
  {
    var d := FileInDir(f);
    assert Parent(["etc", "hosts"]) == ["etc"] && Parent(["etc"]) == [];
    forall p | p in d ensures ValidPath(p) {
      assert forall name :: name in p ==> name == "etc" || name == "hosts";
    }
  }

  lemma ExpectedInPlace(f: Record, g: Record, p: Path)
    requires Differs(f, g)
    ensures Expected(FileInDir(g), FileInDir(f), p) == if p == ["etc", "hosts"] then Some(Modify) else None
  {
    assert !Differs(PLAIN_DIR, PLAIN_DIR);
  }

  /** A file edited in place leaves its directory's time alone, but replaying the edit removes and
      recreates the file, so the directory comes out modified. */
  lemma EditInPlaceFails(host: Host)
    requires host.now.sec != 100
    ensures var newDisk, oldDisk := FileInDir(PlainFile([1], 60)), FileInDir(PlainFile([0], 50));
            && ValidDisk(newDisk) && ValidDisk(oldDisk) && Honest(newDisk, oldDisk)
            && IsChangeList([Change(["etc", "hosts"], Modify)], newDisk, oldDisk)
            && !KeepsMetadata(newDisk, oldDisk, ["etc"], host)
  {
    var newDisk, oldDisk := FileInDir(PlainFile([1], 60)), FileInDir(PlainFile([0], 50));
    FileInDirIsValid(PlainFile([1], 60));
    FileInDirIsValid(PlainFile([0], 50));
    forall p { ExpectedInPlace(PlainFile([0], 50), PlainFile([1], 60), p); }
    assert Parent(["etc", "hosts"]) == ["etc"];
    assert Disturbed(newDisk, oldDisk, ["etc"]);
  }

  function DirWith(capability: Option<Bytes>, sec: int): Disk {
    map[[] := PLAIN_DIR, ["srv"] := Record(Stat(Directory, 0x1ed, 0, 0, 0, 0, Timespec(sec, 0)), capability, [])]
  }

  /** A directory that lost its capability keeps it: an existing directory is merged, and a header
      without the attribute removes nothing. */
  lemma LostCapabilityFails(host: Host)
    ensures var newDisk, oldDisk := DirWith(None, 7), DirWith(Some([1]), 7);
            && ValidDisk(newDisk) && ValidDisk(oldDisk)
            && Expected(newDisk, oldDisk, ["srv"]) == Some(Modify)
            && !KeepsMetadata(newDisk, oldDisk, ["srv"], host)
  {
    assert Parent(["srv"]) == [] && ValidName("srv");
  }

  /** A time before 1970 is replayed as 1970. */
  lemma EarlyTimeFails(host: Host)
    ensures var newDisk, oldDisk := DirWith(None, -1), DirWith(None, 7);
            && ValidDisk(newDisk) && ValidDisk(oldDisk)
            && Expected(newDisk, oldDisk, ["srv"]) == Some(Modify)
            && !KeepsMetadata(newDisk, oldDisk, ["srv"], host)
  {
    assert Parent(["srv"]) == [] && ValidName("srv");
  }

  /** A new file whose name starts like a marker is taken for one and never created. */
  lemma MarkerNameFails(host: Host, sec: int)
    ensures var newDisk := map[[] := PLAIN_DIR, [".wh.a"] := PlainFile([], 7)];
            var layer := Exported(newDisk, [Change([".wh.a"], Add)], sec);
            Applied(map[[] := PLAIN_DIR], layer, host) == Some(map[[] := PLAIN_DIR])
  {
    var newDisk := map[[] := PLAIN_DIR, [".wh.a"] := PlainFile([], 7)];
    var h := FileHeader([".wh.a"], newDisk[[".wh.a"]]);
    var c := Change([".wh.a"], Add);
    assert [c][..0] == [] && [c][0] == c;
    assert Exported(newDisk, [c], sec) == [h];
    assert Base(h.name)[|WHITEOUT_PREFIX|..] == "a";
    assert !IsAufsMetadata(h.name);
    assert WhiteoutTarget(h.name) == ["a"];
    assert [h][..0] == [];
    var s := Replay(map[[] := PLAIN_DIR], [], false);
    assert Replayed(map[[] := PLAIN_DIR], [], host) == s;
    assert Step(s, h, host) == s;
  }
}

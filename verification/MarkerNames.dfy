/** Names that a layer cannot carry, because they read as markers when it is replayed. The law of the archive
    tests holds exactly when all names can be carried and all metadata is kept. */
module MarkerNames {
  import opened Wrappers
  import opened Filesystem
  import opened Changes
  import opened ChangesDirs
  import opened Layers
  import opened RoundTrip
  import opened Faithful
  import opened Untouched

  /** Only what exists has an entry written for it. */
  predicate Headed(newDisk: Disk, c: Change) {
    !c.kind.Delete? ==> c.path in newDisk
  }

  function HeaderOf(newDisk: Disk, c: Change, sec: int): Header
    requires Headed(newDisk, c)
  {
    if c.kind.Delete? then WhiteoutHeader(c.path, sec) else FileHeader(c.path, newDisk[c.path])
  }

  /** Every header was written for some change. */
  lemma {:induction false} WrittenFor(newDisk: Disk, cs: seq<Change>, sec: int, h: Header) returns (c: Change)
    requires h in Exported(newDisk, cs, sec)
    ensures c in cs && Headed(newDisk, c) && h == HeaderOf(newDisk, c, sec)
    decreases |cs|
  {
    c := cs[|cs| - 1];
    if h !in HeadersFor(newDisk, c, sec) {
      c := WrittenFor(newDisk, cs[..|cs| - 1], sec, h);
    }
  }

  ghost predicate HasRoot(d: Disk) {
    [] in d && d[[]].IsDir()
  }

  /** The comparison is possible and reports no change. */
  ghost predicate ReportsNothing(result: Disk, newDisk: Disk) {
    HasRoot(result) && forall p :: Expected(result, newDisk, p).None?
  }

  /** A missing path is reported, itself or at the prefix where it breaks off. */
  lemma {:induction false} MissingIsReported(result: Disk, newDisk: Disk, p: Path)
    requires ValidDisk(newDisk) && p in newDisk && p !in result
    ensures !ReportsNothing(result, newDisk)
    decreases |p|
  {
    if p == [] {
    } else {
      var up := Parent(p);
      if up !in result {
        MissingIsReported(result, newDisk, up);
      } else if up == [] || result[up].IsDir() {
        assert HasRoot(result) ==> Expected(result, newDisk, p) == Some(Delete);
      } else {
        assert Expected(result, newDisk, up) == Some(Modify);
      }
    }
  }

  /** An entry that differs from the new one is reported, as one that is missing is. */
  lemma DifferenceIsReported(result: Disk, newDisk: Disk, p: Path)
    requires ValidDisk(newDisk) && p in newDisk && p != []
    requires p in result ==> Differs(newDisk[p], result[p])
    ensures !ReportsNothing(result, newDisk)
  {
    if p in result {
      assert Expected(result, newDisk, p) == Some(Modify);
    } else {
      MissingIsReported(result, newDisk, p);
    }
  }

  // ---------------------------------------------------------------- entries that cannot be carried

  ghost predicate Below(p: Path, q: Path) {
    p <= q && p != q
  }

  /** Something below `p` has changed. */
  ghost predicate ChangedBelow(newDisk: Disk, oldDisk: Disk, p: Path) {
    exists q :: Below(p, q) && Expected(newDisk, oldDisk, q).Some?
  }

  lemma UnportableIsAvoided(newDisk: Disk, oldDisk: Disk, cs: seq<Change>, sec: int, bad: Change, c: Change)
    requires IsChangeList(cs, newDisk, oldDisk) && bad in cs && c in cs
    requires !bad.kind.Delete? && !Portable(bad) && !ChangedBelow(newDisk, oldDisk, bad.path)
    ensures Avoids(HeaderOf(newDisk, c, sec), bad.path)
  {
    var h, p := HeaderOf(newDisk, c, sec), bad.path;
    assert Parent(h.name) == Parent(c.path);
    assert p <= Parent(c.path) ==> Below(p, c.path);
  }

  /** An entry that cannot be carried, with nothing changed below it, is never written. */
  lemma UnportableFails(newDisk: Disk, oldDisk: Disk, cs: seq<Change>, host: Host, sec: int, bad: Change)
    requires ValidDisk(newDisk) && IsChangeList(cs, newDisk, oldDisk) && bad in cs
    requires !bad.kind.Delete? && !Portable(bad) && !ChangedBelow(newDisk, oldDisk, bad.path)
    ensures var applied := Applied(oldDisk, Exported(newDisk, cs, sec), host);
            applied.Some? ==> !ReportsNothing(applied.value, newDisk)
  {
    var p, layer := bad.path, Exported(newDisk, cs, sec);
    forall h | h in layer
      ensures Avoids(h, p)
    {
      var c := WrittenFor(newDisk, cs, sec, h);
      UnportableIsAvoided(newDisk, oldDisk, cs, sec, bad, c);
    }
    ReplayUnwritten(oldDisk, layer, host, p);
    var s := Replayed(oldDisk, layer, host);
    TimedElsewhere(s.disk, s.dirs, p);
    var applied := Applied(oldDisk, layer, host);
    if applied.Some? {
      DifferenceIsReported(applied.value, newDisk, p);
    }
  }

  /** So it is with everything but directories: nothing changes below them. */
  lemma UnportableWriteFails(newDisk: Disk, oldDisk: Disk, cs: seq<Change>, host: Host, sec: int, bad: Change)
    requires ValidDisk(newDisk) && ValidDisk(oldDisk) && IsChangeList(cs, newDisk, oldDisk) && bad in cs
    requires !bad.kind.Delete? && !Portable(bad) && !newDisk[bad.path].IsDir()
    ensures var applied := Applied(oldDisk, Exported(newDisk, cs, sec), host);
            applied.Some? ==> !ReportsNothing(applied.value, newDisk)
  {
    var p := bad.path;
    forall q | Below(p, q)
      ensures Expected(newDisk, oldDisk, q).None?
    {
      if q in newDisk {
        PrefixesAreDirs(newDisk, q, p);
      } else if Parent(q) in newDisk {
        PrefixesAreDirs(newDisk, Parent(q), p);
      }
    }
    UnportableFails(newDisk, oldDisk, cs, host, sec, bad);
  }

  /** The entry cannot be told from a directory just made, nor from the old entry just touched. */
  predicate LooksMade(newDisk: Disk, oldDisk: Disk, p: Path, host: Host)
    requires p in newDisk
  {
    || !Differs(newDisk[p], NewDir(PARENT_PERM, host))
    || (p in oldDisk && !Differs(newDisk[p], AtTime(oldDisk[p], host.now)))
  }

  /** A directory that cannot be carried may be made all the same, for what is in it, but not as it was. */
  lemma UnportableDirFails(newDisk: Disk, oldDisk: Disk, cs: seq<Change>, host: Host, sec: int, bad: Change)
    requires ValidDisk(newDisk) && ValidDisk(oldDisk) && IsChangeList(cs, newDisk, oldDisk) && bad in cs
    requires !bad.kind.Delete? && !Portable(bad) && !LooksMade(newDisk, oldDisk, bad.path, host)
    ensures var applied := Applied(oldDisk, Exported(newDisk, cs, sec), host);
            applied.Some? ==> !ReportsNothing(applied.value, newDisk)
  {
    var p, layer := bad.path, Exported(newDisk, cs, sec);
    forall h | h in layer
      ensures Passes(h, p)
    {
      var c := WrittenFor(newDisk, cs, sec, h);
    }
    ReplayMakesAtMost(oldDisk, layer, host, p);
    var s := Replayed(oldDisk, layer, host);
    TimedElsewhere(s.disk, s.dirs, p);
    var applied := Applied(oldDisk, layer, host);
    if applied.Some? {
      DifferenceIsReported(applied.value, newDisk, p);
    }
  }

  // ---------------------------------------------------------------- names of AUFS metadata

  ghost function ChangesBelow(cs: seq<Change>, p: Path): set<Change> {
    set c | c in cs && Below(p, c.path)
  }

  /** What is new under such a name is never written, however it looks: its lowest part is not. */
  lemma {:induction false} AufsAddFails(newDisk: Disk, oldDisk: Disk, cs: seq<Change>, host: Host, sec: int,
                                        bad: Change)
    requires ValidDisk(newDisk) && ValidDisk(oldDisk) && IsChangeList(cs, newDisk, oldDisk) && bad in cs
    requires bad.kind.Add? && IsAufsMetadata(bad.path)
    ensures var applied := Applied(oldDisk, Exported(newDisk, cs, sec), host);
            applied.Some? ==> !ReportsNothing(applied.value, newDisk)
    decreases ChangesBelow(cs, bad.path)
  {
    if ChangedBelow(newDisk, oldDisk, bad.path) {
      var q :| Below(bad.path, q) && Expected(newDisk, oldDisk, q).Some?;
      var c := Change(q, Expected(newDisk, oldDisk, q).value);
      if q in oldDisk {
        PrefixesAreDirs(oldDisk, q, bad.path);
      }
      assert c in ChangesBelow(cs, bad.path) && c !in ChangesBelow(cs, q);
      assert ChangesBelow(cs, q) <= ChangesBelow(cs, bad.path);
      AufsAddFails(newDisk, oldDisk, cs, host, sec, c);
    } else {
      UnportableFails(newDisk, oldDisk, cs, host, sec, bad);
    }
  }

  /** Where only such names cannot be carried, and none of them is new, nothing touches them. */
  ghost predicate OnlyOldAufs(cs: seq<Change>) {
    forall c :: c in cs && !c.kind.Delete? && !Portable(c) ==> c.kind.Modify? && IsAufsMetadata(c.path)
  }

  lemma OldAufsIsLeft(newDisk: Disk, oldDisk: Disk, cs: seq<Change>, sec: int, c: Change)
    requires ValidDisk(oldDisk) && IsChangeList(cs, newDisk, oldDisk) && OnlyOldAufs(cs) && c in cs
    ensures LeavesAufs(HeaderOf(newDisk, c, sec), oldDisk)
  {
    var h := HeaderOf(newDisk, c, sec);
    assert c.path != [] && Parent(h.name) == Parent(c.path);
    if c.kind.Delete? {
      if Portable(c) {
        WhiteoutUndone(c, sec);
      } else {
        UnportableMarkerSkipped(c, sec);
      }
    } else if IsAufsMetadata(c.path) {
      assert !Portable(c);
    }
  }

  lemma AufsModifyFails(newDisk: Disk, oldDisk: Disk, cs: seq<Change>, host: Host, sec: int, bad: Change)
    requires ValidDisk(newDisk) && ValidDisk(oldDisk) && IsChangeList(cs, newDisk, oldDisk) && bad in cs
    requires OnlyOldAufs(cs) && bad.kind.Modify? && IsAufsMetadata(bad.path)
    ensures var applied := Applied(oldDisk, Exported(newDisk, cs, sec), host);
            applied.Some? ==> !ReportsNothing(applied.value, newDisk)
  {
    var p, layer := bad.path, Exported(newDisk, cs, sec);
    forall h | h in layer
      ensures LeavesAufs(h, oldDisk)
    {
      var c := WrittenFor(newDisk, cs, sec, h);
      OldAufsIsLeft(newDisk, oldDisk, cs, sec, c);
    }
    ReplayLeavesAufs(oldDisk, layer, host);
    var s := Replayed(oldDisk, layer, host);
    TimedElsewhere(s.disk, s.dirs, p);
    var applied := Applied(oldDisk, layer, host);
    if applied.Some? {
      DifferenceIsReported(applied.value, newDisk, p);
    }
  }

  // ---------------------------------------------------------------- deletions

  /** A deletion that cannot be carried is written under a name that a replay skips. */
  lemma UnportableMarkerSkipped(c: Change, sec: int)
    requires c.kind.Delete? && c.path != [] && !Portable(c)
    ensures IsAufsMetadata(WhiteoutHeader(c.path, sec).name)
  {
    var name := WhiteoutHeader(c.path, sec).name;
    assert WHITEOUT_PREFIX + WHITEOUT_PREFIX == AUFS_PREFIX;
    if |c.path| == 1 {
      assert Parent(c.path) == [] && name == [WHITEOUT_PREFIX + c.path[0]];
      assert WHITEOUT_PREFIX <= c.path[0];
    } else {
      assert name[0] == c.path[0];
    }
  }

  /** And where all other entries can be carried, every header leaves its path alone. */
  lemma UnportableDeleteLeft(newDisk: Disk, oldDisk: Disk, cs: seq<Change>, sec: int, bad: Change, c: Change)
    requires ValidDisk(newDisk) && ValidDisk(oldDisk) && IsChangeList(cs, newDisk, oldDisk) && bad in cs && c in cs
    requires bad.kind.Delete? && !Portable(bad) && (!c.kind.Delete? ==> Portable(c))
    ensures Leaves(HeaderOf(newDisk, c, sec), bad.path)
  {
    var h, p := HeaderOf(newDisk, c, sec), bad.path;
    assert c.path != [] && p != [];
    if c.path <= p && c.path != p {
      assert c.path <= Parent(p);
      PrefixesAreDirs(newDisk, Parent(p), c.path);
    }
    if c.kind.Delete? {
      if Portable(c) {
        WhiteoutUndone(c, sec);
        assert c.path == p ==> c == bad;
      } else {
        UnportableMarkerSkipped(c, sec);
      }
    }
  }

  lemma UnportableDeleteFails(newDisk: Disk, oldDisk: Disk, cs: seq<Change>, host: Host, sec: int, bad: Change)
    requires ValidDisk(newDisk) && ValidDisk(oldDisk) && IsChangeList(cs, newDisk, oldDisk) && bad in cs
    requires bad.kind.Delete? && !Portable(bad) && forall c :: c in cs && !c.kind.Delete? ==> Portable(c)
    ensures var applied := Applied(oldDisk, Exported(newDisk, cs, sec), host);
            applied.Some? ==> !ReportsNothing(applied.value, newDisk)
  {
    var p, layer := bad.path, Exported(newDisk, cs, sec);
    forall h | h in layer
      ensures Leaves(h, p)
    {
      var c := WrittenFor(newDisk, cs, sec, h);
      UnportableDeleteLeft(newDisk, oldDisk, cs, sec, bad, c);
    }
    ReplayKeeps(oldDisk, layer, host, p);
    var s := Replayed(oldDisk, layer, host);
    TimedElsewhere(s.disk, s.dirs, p);
    var applied := Applied(oldDisk, layer, host);
    if applied.Some? {
      assert p in applied.value && p !in newDisk;
      assert Expected(applied.value, newDisk, p) == Some(Add);
    }
  }

  // ---------------------------------------------------------------- the law

  /** Every change has a name that a layer can carry. */
  ghost predicate AllPortable(newDisk: Disk, oldDisk: Disk) {
    forall p :: Expected(newDisk, oldDisk, p).Some? ==> Portable(Change(p, Expected(newDisk, oldDisk, p).value))
  }

  ghost predicate AllKept(newDisk: Disk, oldDisk: Disk, host: Host) {
    forall p :: p in newDisk && p != [] ==> KeepsMetadata(newDisk, oldDisk, p, host)
  }

  /** A changed directory whose own name reads as a whiteout, with something changed below it, that cannot be told
      from one just made, or from the old one just touched: a replay may happen to bring it out right. */
  ghost predicate MayComeOut(newDisk: Disk, oldDisk: Disk, p: Path, host: Host) {
    && p in newDisk && newDisk[p].IsDir() && Expected(newDisk, oldDisk, p).Some?
    && !IsAufsMetadata(p) && HasPrefix(Base(p), WHITEOUT_PREFIX)
    && ChangedBelow(newDisk, oldDisk, p) && LooksMade(newDisk, oldDisk, p, host)
  }

  ghost predicate NoneMayComeOut(newDisk: Disk, oldDisk: Disk, host: Host) {
    forall p :: !MayComeOut(newDisk, oldDisk, p, host)
  }

  /** The law and its exact condition, for all trees but those with a directory that may come out by chance. */
  lemma LawIffCarried(newDisk: Disk, oldDisk: Disk, cs: seq<Change>, host: Host, sec: int)
    requires ValidDisk(newDisk) && ValidDisk(oldDisk) && IsChangeList(cs, newDisk, oldDisk)
    requires NoneMayComeOut(newDisk, oldDisk, host)
    ensures var applied := Applied(oldDisk, Exported(newDisk, cs, sec), host);
            applied.Some? && ReportsNothing(applied.value, newDisk) <==>
              AllPortable(newDisk, oldDisk) && AllKept(newDisk, oldDisk, host)
  {
    if bad :| bad in cs && !Portable(bad) {
      assert Expected(newDisk, oldDisk, bad.path) == Some(bad.kind);
      UnportableBreaksLaw(newDisk, oldDisk, cs, host, sec, bad);
    } else {
      assert forall p :: Expected(newDisk, oldDisk, p).Some? ==> Change(p, Expected(newDisk, oldDisk, p).value) in cs;
      var result := ReapplyLaw(newDisk, oldDisk, cs, host, sec);
      CarriedReports(newDisk, oldDisk, host, result);
    }
  }

  lemma UnportableBreaksLaw(newDisk: Disk, oldDisk: Disk, cs: seq<Change>, host: Host, sec: int, some: Change)
    requires ValidDisk(newDisk) && ValidDisk(oldDisk) && IsChangeList(cs, newDisk, oldDisk)
    requires NoneMayComeOut(newDisk, oldDisk, host) && some in cs && !Portable(some)
    ensures var applied := Applied(oldDisk, Exported(newDisk, cs, sec), host);
            applied.Some? ==> !ReportsNothing(applied.value, newDisk)
  {
    if bad :| bad in cs && !bad.kind.Delete? && !Portable(bad) && !IsAufsMetadata(bad.path) {
      assert !MayComeOut(newDisk, oldDisk, bad.path, host);
      if !newDisk[bad.path].IsDir() {
        UnportableWriteFails(newDisk, oldDisk, cs, host, sec, bad);
      } else if ChangedBelow(newDisk, oldDisk, bad.path) {
        UnportableDirFails(newDisk, oldDisk, cs, host, sec, bad);
      } else {
        UnportableFails(newDisk, oldDisk, cs, host, sec, bad);
      }
    } else if bad :| bad in cs && bad.kind.Add? && !Portable(bad) {
      AufsAddFails(newDisk, oldDisk, cs, host, sec, bad);
    } else if bad :| bad in cs && !bad.kind.Delete? && !Portable(bad) {
      AufsModifyFails(newDisk, oldDisk, cs, host, sec, bad);
    } else {
      UnportableDeleteFails(newDisk, oldDisk, cs, host, sec, some);
    }
  }

  lemma CarriedReports(newDisk: Disk, oldDisk: Disk, host: Host, result: Disk)
    requires ValidDisk(newDisk) && ValidDisk(oldDisk) && result.Keys == newDisk.Keys
    requires forall p :: p in newDisk ==> result[p] == Outcome(newDisk, oldDisk, p, host)
    ensures ReportsNothing(result, newDisk) <==> AllKept(newDisk, oldDisk, host)
  {
    assert HasRoot(result);
    forall p | p in newDisk && p != []
      ensures Expected(result, newDisk, p).None? <==> KeepsMetadata(newDisk, oldDisk, p, host)
    {
      OutcomeDiffers(newDisk, oldDisk, p, host);
    }
    forall p | p !in newDisk || p == []
      ensures Expected(result, newDisk, p).None?
    {
    }
  }
  // ---------------------------------------------------------------- a directory that comes out

  function HiddenDir(host: Host): Disk {
    map[[] := PLAIN_DIR, [".wh.d"] := NewDir(PARENT_PERM, host), [".wh.d", "f"] := PlainFile([], 7)]
  }

  /** The exception is real: here a name cannot be carried, and the law holds all the same. */
  lemma DirComesOut(host: Host, sec: int)
    requires host.now.nsec < NSEC_PER_SEC
    ensures var newDisk, oldDisk := HiddenDir(host), map[[] := PLAIN_DIR];
            var cs := [Change([".wh.d"], Add), Change([".wh.d", "f"], Add)];
            && ValidDisk(newDisk) && ValidDisk(oldDisk) && IsChangeList(cs, newDisk, oldDisk)
            && !AllPortable(newDisk, oldDisk)
            && Applied(oldDisk, Exported(newDisk, cs, sec), host).Some?
            && ReportsNothing(Applied(oldDisk, Exported(newDisk, cs, sec), host).value, newDisk)
  {
    var newDisk, oldDisk: Disk := HiddenDir(host), map[[] := PLAIN_DIR];
    var dir, file := [".wh.d"], [".wh.d", "f"];
    var c, e := Change(dir, Add), Change(file, Add);
    HiddenDirIsValid(host);
    HiddenDirIsListed(host);
    var h, g := FileHeader(dir, newDisk[dir]), FileHeader(file, newDisk[file]);
    assert [c, e][..1] == [c] && [c][..0] == [];
    assert Exported(newDisk, [], sec) == [];
    assert Exported(newDisk, [c], sec) == [] + [h];
    assert Exported(newDisk, [c, e], sec) == [h] + [g];
    assert ([h] + [g])[..1] == [h] && [h][..0] == [];
    var s := Replay(oldDisk, [], false);
    MarkerIsSkipped(oldDisk, h, host);
    assert Replayed(oldDisk, [], host) == s;
    assert Replayed(oldDisk, [h], host) == Step(s, h, host) == s;
    var result := FileIsPlaced(oldDisk, newDisk, g, host);
    assert Replayed(oldDisk, [h] + [g], host) == Replay(result, [], false);
    assert Timed(result, []) == Some(result);
  }

  lemma HiddenDirIsValid(host: Host)
    requires host.now.nsec < NSEC_PER_SEC
    ensures ValidDisk(HiddenDir(host)) && ValidDisk(map[[] := PLAIN_DIR])
  {
    assert Parent([".wh.d", "f"]) == [".wh.d"] && Parent([".wh.d"]) == [];
    forall p | p in HiddenDir(host)
      ensures ValidPath(p)
    {
      assert ValidName(".wh.d") && ValidName("f");
      assert forall name :: name in p ==> name == ".wh.d" || name == "f";
    }
  }

  lemma HiddenDirIsListed(host: Host)
    ensures var newDisk, oldDisk := HiddenDir(host), map[[] := PLAIN_DIR];
            && IsChangeList([Change([".wh.d"], Add), Change([".wh.d", "f"], Add)], newDisk, oldDisk)
            && !AllPortable(newDisk, oldDisk)
  {
    var newDisk, oldDisk: Disk := HiddenDir(host), map[[] := PLAIN_DIR];
    var dir, file := [".wh.d"], [".wh.d", "f"];
    var cs := [Change(dir, Add), Change(file, Add)];
    assert forall p :: Expected(newDisk, oldDisk, p) == if p == dir || p == file then Some(Add) else None;
    assert cs[0] in cs && cs[1] in cs;
    assert !Portable(Change(dir, Add)) by {
      assert Base(dir) == ".wh.d";
    }
  }

  lemma MarkerIsSkipped(d: Disk, h: Header, host: Host)
    requires d == map[[] := PLAIN_DIR] && h.name == [".wh.d"]
    ensures Step(Replay(d, [], false), h, host) == Replay(d, [], false)
  {
    assert Parent(h.name) == [] && Base(h.name) == ".wh.d";
    assert !IsAufsMetadata(h.name) && HasPrefix(".wh.d", WHITEOUT_PREFIX);
    assert Base(h.name)[|WHITEOUT_PREFIX|..] == "d";
    assert WhiteoutTarget(h.name) == ["d"];
  }

  lemma FileIsPlaced(d: Disk, newDisk: Disk, g: Header, host: Host) returns (result: Disk)
    requires d == map[[] := PLAIN_DIR] && newDisk == HiddenDir(host)
    requires g == FileHeader([".wh.d", "f"], PlainFile([], 7))
    ensures Step(Replay(d, [], false), g, host) == Replay(result, [], false) && ReportsNothing(result, newDisk)
  {
    var dir, file := [".wh.d"], [".wh.d", "f"];
    assert Parent(file) == dir && Parent(dir) == [] && Base(file) == "f";
    assert dir[..0] == [];
    assert !Blocked(d, dir) && !IsAufsMetadata(file);
    var made := Touch(d[dir := NewDir(PARENT_PERM, host)], dir, host.now);
    assert MkdirAll(d, [], host) == Some(d);
    assert MkdirAll(d, dir, host) == Some(made);
    assert file !in made && CanCreate(made, file);
    result := Touch(made[file := CreatedRecord(None, g, host)], file, host.now);
    assert Place(made, g, host) == Some(result);
    assert forall p :: p in result <==> p in newDisk;
    assert !Differs(newDisk[dir], result[dir]);
    assert !Differs(newDisk[file], result[file]);
  }
}

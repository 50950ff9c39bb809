/** Comparing two directories, writing the changes as a layer, replaying it and comparing again, as one program
    (`archive/changes_test.go`), for any two trees. */
module Circle {
  import opened Wrappers
  import opened Filesystem
  import opened Changes
  import opened ChangesDirs
  import opened Layers
  import opened RoundTrip
  import opened Faithful
  import opened MarkerNames

  // ---------------------------------------------------------------- a replay leaves a tree, or nothing

  ghost predicate TreeOrNothing(d: Disk) {
    d == map[] || ValidDisk(d)
  }

  lemma TouchKeepsTree(d: Disk, p: Path, host: Host)
    requires ValidDisk(d) && host.now.nsec < NSEC_PER_SEC
    ensures ValidDisk(Touch(d, p, host.now))
  {
  }

  lemma RemoveKeepsTree(d: Disk, p: Path, host: Host)
    requires TreeOrNothing(d) && host.now.nsec < NSEC_PER_SEC
    ensures TreeOrNothing(RemoveAll(d, p, host))
  {
    var left := Without(d, p);
    if p in d {
      if p == [] {
        assert left == map[];
      } else {
        forall q | q in left && q != []
          ensures Parent(q) in left
        {
          assert p <= Parent(q) ==> p <= q;
        }
        TouchKeepsTree(left, p, host);
      }
    }
  }

  lemma PutKeepsTree(d: Disk, p: Path, r: Record, host: Host)
    requires ValidDisk(d) && host.now.nsec < NSEC_PER_SEC
    requires ValidPath(p) && ValidRecord(r) && CanCreate(d, p)
    ensures ValidDisk(Touch(d[p := r], p, host.now))
  {
    TouchKeepsTree(d[p := r], p, host);
  }

  lemma {:induction false} MkdirKeepsTree(d: Disk, p: Path, host: Host)
    requires TreeOrNothing(d) && ValidPath(p) && host.now.nsec < NSEC_PER_SEC
    ensures var made := MkdirAll(d, p, host); made.Some? ==> ValidDisk(made.value)
    decreases |p|
  {
    if p in d || p == [] {
    } else {
      MkdirKeepsTree(d, Parent(p), host);
      var up := MkdirAll(d, Parent(p), host);
      if up.Some? && CanCreate(up.value, p) {
        PutKeepsTree(up.value, p, NewDir(PARENT_PERM, host), host);
      }
    }
  }

  lemma CreatedIsValid(old_: Option<Record>, h: Header, host: Host)
    ensures ValidRecord(CreatedRecord(old_, h, host))
  {
  }

  lemma CreateKeepsTree(d: Disk, h: Header, host: Host)
    requires TreeOrNothing(d) && ValidPath(h.name) && h.name != [] && host.now.nsec < NSEC_PER_SEC
    ensures var made := CreateTarFile(d, h, host); made.Some? ==> ValidDisk(made.value)
  {
    if h.name in d && Accepts(d[h.name], h) {
      CreatedIsValid(Some(d[h.name]), h, host);
    } else if CanCreate(d, h.name) {
      CreatedIsValid(None, h, host);
      PutKeepsTree(d, h.name, CreatedRecord(None, h, host), host);
    }
  }

  /** A header for an entry, or a marker beside one. */
  ghost predicate IsNamed(h: Header) {
    h.name != [] && ValidPath(Parent(h.name)) && (!HasPrefix(Base(h.name), WHITEOUT_PREFIX) ==> ValidPath(h.name))
  }

  lemma StepKeepsTree(s: Replay, h: Header, host: Host)
    requires TreeOrNothing(s.disk) && IsNamed(h) && host.now.nsec < NSEC_PER_SEC
    ensures TreeOrNothing(Step(s, h, host).disk)
  {
    MkdirKeepsTree(s.disk, Parent(h.name), host);
    var parent := EnsureParent(s.disk, h.name, host);
    if parent.Some? && !IsAufsMetadata(h.name) {
      if HasPrefix(Base(h.name), WHITEOUT_PREFIX) {
        RemoveKeepsTree(parent.value, WhiteoutTarget(h.name), host);
      } else {
        RemoveKeepsTree(parent.value, h.name, host);
        CreateKeepsTree(RemoveAll(parent.value, h.name, host), h, host);
        CreateKeepsTree(parent.value, h, host);
      }
    }
  }

  lemma {:induction false} ReplayKeepsTree(oldDisk: Disk, layer: seq<Header>, host: Host)
    requires ValidDisk(oldDisk) && host.now.nsec < NSEC_PER_SEC && forall h :: h in layer ==> IsNamed(h)
    ensures TreeOrNothing(Replayed(oldDisk, layer, host).disk)
    decreases |layer|
  {
    if layer == [] {
    } else {
      var init, last := layer[..|layer| - 1], layer[|layer| - 1];
      ReplayKeepsTree(oldDisk, init, host);
      StepKeepsTree(Replayed(oldDisk, init, host), last, host);
    }
  }

  lemma SetTimeKeepsTree(d: Disk, p: Path, t: Timespec)
    requires ValidDisk(d) && p in d && t.nsec < NSEC_PER_SEC
    ensures ValidDisk(d[p := AtTime(d[p], t)])
  {
  }

  lemma {:induction false} TimedKeepsTree(d: Disk, dirs: seq<Header>)
    requires TreeOrNothing(d)
    ensures Timed(d, dirs).Some? ==> TreeOrNothing(Timed(d, dirs).value)
    decreases |dirs|
  {
    if dirs == [] {
    } else {
      var init, last := dirs[..|dirs| - 1], dirs[|dirs| - 1];
      TimedKeepsTree(d, init);
      if Timed(d, dirs).Some? {
        SetTimeKeepsTree(Timed(d, init).value, last.name, Timespec(last.sec, 0));
      }
    }
  }

  /** Whatever the two trees, a replay that succeeds leaves a tree, or has removed all of it. */
  lemma AppliedKeepsTree(newDisk: Disk, oldDisk: Disk, cs: seq<Change>, host: Host, sec: int)
    requires ValidDisk(newDisk) && ValidDisk(oldDisk) && IsChangeList(cs, newDisk, oldDisk)
    requires host.now.nsec < NSEC_PER_SEC
    ensures var applied := Applied(oldDisk, Exported(newDisk, cs, sec), host);
            applied.Some? ==> TreeOrNothing(applied.value)
  {
    var layer := Exported(newDisk, cs, sec);
    forall h | h in layer
      ensures IsNamed(h)
    {
      var c := WrittenFor(newDisk, cs, sec, h);
      assert c.path != [] && Parent(h.name) == Parent(c.path);
    }
    ReplayKeepsTree(oldDisk, layer, host);
    var s := Replayed(oldDisk, layer, host);
    TimedKeepsTree(s.disk, s.dirs);
  }

  // ---------------------------------------------------------------- the circle

  /** The program, for any two trees and any order in which a tree is walked. It has no result where the replay
      fails or removes the root. */
  method DiffReplayDiff(newDisk: Disk, dest: Destination, walk: Disk -> seq<Path>, sec: int)
    returns (again: Option<seq<Change>>)
    requires ValidDisk(newDisk) && ValidDisk(dest.disk) && dest.host.now.nsec < NSEC_PER_SEC
    requires forall d :: ValidDisk(d) ==> IsWalk(walk(d), d)
    modifies dest
    ensures NoneMayComeOut(newDisk, old(dest.disk), dest.host) ==>
              (again == Some([]) <==>
                 AllPortable(newDisk, old(dest.disk)) && AllKept(newDisk, old(dest.disk), dest.host))
    ensures AllPortable(newDisk, old(dest.disk)) ==> again.Some? && dest.disk.Keys == newDisk.Keys
    ensures AllPortable(newDisk, old(dest.disk)) && Honest(newDisk, old(dest.disk)) ==>
              forall p :: p in newDisk && p != [] ==> p in dest.disk && dest.disk[p].content == newDisk[p].content
  {
    ghost var oldDisk := dest.disk;
    var changes := CompareDirs(newDisk, walk(newDisk), dest.disk, walk(dest.disk));
    var layer := ExportChanges(newDisk, changes.value, sec);
    AppliedKeepsTree(newDisk, oldDisk, changes.value, dest.host, sec);
    CircleHolds(newDisk, oldDisk, changes.value, dest.host, sec);
    var ok := dest.ApplyLayer(layer);
    if !ok || [] !in dest.disk {
      return None;
    }
    again := CompareDirs(dest.disk, walk(dest.disk), newDisk, walk(newDisk));
    NothingListed(again.value, dest.disk, newDisk);
  }

  /** What the replay leaves, as the program's result depends on it. */
  lemma CircleHolds(newDisk: Disk, oldDisk: Disk, cs: seq<Change>, host: Host, sec: int)
    requires ValidDisk(newDisk) && ValidDisk(oldDisk) && IsChangeList(cs, newDisk, oldDisk)
    ensures var applied := Applied(oldDisk, Exported(newDisk, cs, sec), host);
            && (NoneMayComeOut(newDisk, oldDisk, host) ==>
                  (applied.Some? && ReportsNothing(applied.value, newDisk) <==>
                     AllPortable(newDisk, oldDisk) && AllKept(newDisk, oldDisk, host)))
            && (AllPortable(newDisk, oldDisk) ==> applied.Some? && applied.value.Keys == newDisk.Keys)
            && (AllPortable(newDisk, oldDisk) && Honest(newDisk, oldDisk) ==>
                  forall p :: p in newDisk && p != [] ==> applied.value[p].content == newDisk[p].content)
  {
    if NoneMayComeOut(newDisk, oldDisk, host) {
      LawIffCarried(newDisk, oldDisk, cs, host, sec);
    }
    if AllPortable(newDisk, oldDisk) {
      forall c | c in cs
        ensures Portable(c)
      {
        assert Expected(newDisk, oldDisk, c.path) == Some(c.kind);
      }
      var result := ReapplyLaw(newDisk, oldDisk, cs, host, sec);
    }
  }

  lemma NothingListed(cs: seq<Change>, result: Disk, newDisk: Disk)
    requires ValidDisk(result) && IsChangeList(cs, result, newDisk)
    ensures cs == [] <==> ReportsNothing(result, newDisk)
  {
    if cs != [] {
      assert cs[0] in cs;
    }
  }
}

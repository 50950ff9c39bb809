/** What a replay leaves alone, whatever the layer: a path that no header writes, one that none removes, and
    the paths below names of AUFS metadata. */
module Untouched {
  import opened Wrappers
  import opened Filesystem
  import opened Layers

  // ---------------------------------------------------------------- a path that nothing writes

  /** What stands at `p` is what stood there. */
  ghost predicate Unwritten(d: Disk, oldDisk: Disk, p: Path) {
    p in d ==> p in oldDisk && d[p] == oldDisk[p]
  }

  lemma RemoveUnwritten(d: Disk, q: Path, host: Host, oldDisk: Disk, p: Path)
    requires Unwritten(d, oldDisk, p) && (q == [] || Parent(q) != p)
    ensures Unwritten(RemoveAll(d, q, host), oldDisk, p)
  {
  }

  lemma {:induction false} MkdirUnwritten(d: Disk, a: Path, host: Host, oldDisk: Disk, p: Path)
    requires Unwritten(d, oldDisk, p) && !(p <= a)
    ensures var made := MkdirAll(d, a, host); made.Some? ==> Unwritten(made.value, oldDisk, p)
    decreases |a|
  {
    if a in d || a == [] {
    } else {
      assert p <= Parent(a) ==> p <= a;
      MkdirUnwritten(d, Parent(a), host, oldDisk, p);
    }
  }

  lemma CreateUnwritten(d: Disk, h: Header, host: Host, oldDisk: Disk, p: Path)
    requires Unwritten(d, oldDisk, p) && !(p <= h.name)
    ensures var made := CreateTarFile(d, h, host); made.Some? ==> Unwritten(made.value, oldDisk, p)
  {
    assert h.name != [] && Parent(h.name) == p ==> p <= h.name;
  }

  /** The header is for another path, not below `p`, or is not taken as an entry at all. */
  ghost predicate Avoids(h: Header, p: Path) {
    && h.name != [] && !(p <= Parent(h.name))
    && (h.name == p ==> IsAufsMetadata(h.name) || HasPrefix(Base(h.name), WHITEOUT_PREFIX))
  }

  ghost predicate UnwrittenSoFar(s: Replay, oldDisk: Disk, p: Path) {
    !s.failed ==> Unwritten(s.disk, oldDisk, p) && forall g :: g in s.dirs ==> g.name != p
  }

  lemma StepUnwritten(s: Replay, h: Header, host: Host, oldDisk: Disk, p: Path)
    requires UnwrittenSoFar(s, oldDisk, p) && !s.failed && Avoids(h, p)
    ensures UnwrittenSoFar(Step(s, h, host), oldDisk, p)
  {
    MkdirUnwritten(s.disk, Parent(h.name), host, oldDisk, p);
    var parent := EnsureParent(s.disk, h.name, host);
    if parent.Some? && !IsAufsMetadata(h.name) {
      if HasPrefix(Base(h.name), WHITEOUT_PREFIX) {
        TargetIsOff(h, p);
        RemoveUnwritten(parent.value, WhiteoutTarget(h.name), host, oldDisk, p);
      } else {
        assert h.name != p && Parent(h.name) + [Base(h.name)] == h.name;
        RemoveUnwritten(parent.value, h.name, host, oldDisk, p);
        CreateUnwritten(RemoveAll(parent.value, h.name, host), h, host, oldDisk, p);
        CreateUnwritten(parent.value, h, host, oldDisk, p);
      }
    }
  }

  /** What a marker removes does not lie in `p` either. */
  lemma TargetIsOff(h: Header, p: Path)
    requires Avoids(h, p) && HasPrefix(Base(h.name), WHITEOUT_PREFIX)
    ensures WhiteoutTarget(h.name) == [] || Parent(WhiteoutTarget(h.name)) != p
  {
    var up := Parent(h.name);
    assert up != [] ==> up == Parent(up) + [Base(up)];
    assert up != [] && Parent(up) != [] ==> Parent(up) == Parent(Parent(up)) + [Base(Parent(up))];
  }

  lemma {:induction false} ReplayUnwritten(oldDisk: Disk, layer: seq<Header>, host: Host, p: Path)
    requires forall h :: h in layer ==> Avoids(h, p)
    ensures UnwrittenSoFar(Replayed(oldDisk, layer, host), oldDisk, p)
    decreases |layer|
  {
    if layer == [] {
    } else {
      var init, last := layer[..|layer| - 1], layer[|layer| - 1];
      ReplayUnwritten(oldDisk, init, host, p);
      if !Replayed(oldDisk, init, host).failed {
        StepUnwritten(Replayed(oldDisk, init, host), last, host, oldDisk, p);
      }
    }
  }

  // ---------------------------------------------------------------- a path that is made as a parent at most

  /** What stands at `p` is what stood there, perhaps touched, or a directory made for what is below it. */
  ghost predicate MadeAtMost(d: Disk, oldDisk: Disk, p: Path, host: Host) {
    p in d ==>
      || d[p] == NewDir(PARENT_PERM, host)
      || (p in oldDisk && (d[p] == oldDisk[p] || d[p] == AtTime(oldDisk[p], host.now)))
  }

  lemma {:induction false} MkdirMakesAtMost(d: Disk, a: Path, host: Host, oldDisk: Disk, p: Path)
    requires MadeAtMost(d, oldDisk, p, host)
    ensures var made := MkdirAll(d, a, host); made.Some? ==> MadeAtMost(made.value, oldDisk, p, host)
    decreases |a|
  {
    if a in d || a == [] {
    } else {
      MkdirMakesAtMost(d, Parent(a), host, oldDisk, p);
    }
  }

  /** The header is for another path, or is not taken as an entry at all. */
  ghost predicate Passes(h: Header, p: Path) {
    h.name != [] && (h.name == p ==> IsAufsMetadata(h.name) || HasPrefix(Base(h.name), WHITEOUT_PREFIX))
  }

  ghost predicate MadeSoFar(s: Replay, oldDisk: Disk, p: Path, host: Host) {
    !s.failed ==> MadeAtMost(s.disk, oldDisk, p, host) && forall g :: g in s.dirs ==> g.name != p
  }

  lemma RemoveMakesAtMost(d: Disk, q: Path, host: Host, oldDisk: Disk, p: Path)
    requires MadeAtMost(d, oldDisk, p, host)
    ensures MadeAtMost(RemoveAll(d, q, host), oldDisk, p, host)
  {
  }

  lemma CreateMakesAtMost(d: Disk, h: Header, host: Host, oldDisk: Disk, p: Path)
    requires MadeAtMost(d, oldDisk, p, host) && h.name != p
    ensures var made := CreateTarFile(d, h, host); made.Some? ==> MadeAtMost(made.value, oldDisk, p, host)
  {
  }

  lemma StepMakesAtMost(s: Replay, h: Header, host: Host, oldDisk: Disk, p: Path)
    requires MadeSoFar(s, oldDisk, p, host) && !s.failed && Passes(h, p)
    ensures MadeSoFar(Step(s, h, host), oldDisk, p, host)
  {
    MkdirMakesAtMost(s.disk, Parent(h.name), host, oldDisk, p);
    var parent := EnsureParent(s.disk, h.name, host);
    if parent.Some? && !IsAufsMetadata(h.name) {
      if HasPrefix(Base(h.name), WHITEOUT_PREFIX) {
        RemoveMakesAtMost(parent.value, WhiteoutTarget(h.name), host, oldDisk, p);
      } else {
        RemoveMakesAtMost(parent.value, h.name, host, oldDisk, p);
        CreateMakesAtMost(RemoveAll(parent.value, h.name, host), h, host, oldDisk, p);
        CreateMakesAtMost(parent.value, h, host, oldDisk, p);
      }
    }
  }

  lemma {:induction false} ReplayMakesAtMost(oldDisk: Disk, layer: seq<Header>, host: Host, p: Path)
    requires forall h :: h in layer ==> Passes(h, p)
    ensures MadeSoFar(Replayed(oldDisk, layer, host), oldDisk, p, host)
    decreases |layer|
  {
    if layer == [] {
    } else {
      var init, last := layer[..|layer| - 1], layer[|layer| - 1];
      ReplayMakesAtMost(oldDisk, init, host, p);
      if !Replayed(oldDisk, init, host).failed {
        StepMakesAtMost(Replayed(oldDisk, init, host), last, host, oldDisk, p);
      }
    }
  }

  // ---------------------------------------------------------------- a path that nothing removes

  /** `p` is there, in directories. */
  ghost predicate Kept(d: Disk, p: Path) {
    forall a :: a <= p ==> a in d && (a != p ==> d[a].IsDir())
  }

  lemma RemoveKeeps(d: Disk, q: Path, host: Host, p: Path)
    requires Kept(d, p) && !(q <= p)
    ensures Kept(RemoveAll(d, q, host), p)
  {
    if q in d {
      forall a | a <= p
        ensures a in Without(d, q)
      {
        assert q <= a ==> q <= p;
      }
    }
  }

  lemma {:induction false} MkdirKeeps(d: Disk, a: Path, host: Host, p: Path)
    requires Kept(d, p)
    ensures var made := MkdirAll(d, a, host); made.Some? ==> Kept(made.value, p)
    decreases |a|
  {
    if a in d || a == [] {
    } else {
      MkdirKeeps(d, Parent(a), host, p);
    }
  }

  lemma CreateKeeps(d: Disk, h: Header, host: Host, p: Path)
    requires Kept(d, p)
    ensures var made := CreateTarFile(d, h, host); made.Some? ==> Kept(made.value, p)
  {
  }

  /** The header removes no prefix of `p`. */
  ghost predicate Leaves(h: Header, p: Path) {
    && h.name != []
    && (!IsAufsMetadata(h.name) ==>
          if HasPrefix(Base(h.name), WHITEOUT_PREFIX) then !(WhiteoutTarget(h.name) <= p)
          else h.name <= p ==> h.name != p && h.kind.Directory?)
  }

  lemma StepKeeps(s: Replay, h: Header, host: Host, p: Path)
    requires Kept(s.disk, p) && Leaves(h, p)
    ensures var s' := Step(s, h, host); !s'.failed ==> Kept(s'.disk, p)
  {
    MkdirKeeps(s.disk, Parent(h.name), host, p);
    var parent := EnsureParent(s.disk, h.name, host);
    if parent.Some? && !IsAufsMetadata(h.name) {
      if HasPrefix(Base(h.name), WHITEOUT_PREFIX) {
        RemoveKeeps(parent.value, WhiteoutTarget(h.name), host, p);
      } else {
        if !(h.name <= p) {
          RemoveKeeps(parent.value, h.name, host, p);
          CreateKeeps(RemoveAll(parent.value, h.name, host), h, host, p);
        }
        CreateKeeps(parent.value, h, host, p);
      }
    }
  }

  lemma {:induction false} ReplayKeeps(oldDisk: Disk, layer: seq<Header>, host: Host, p: Path)
    requires ValidDisk(oldDisk) && p in oldDisk && forall h :: h in layer ==> Leaves(h, p)
    ensures var s := Replayed(oldDisk, layer, host); !s.failed ==> Kept(s.disk, p)
    decreases |layer|
  {
    if layer == [] {
      forall a | a <= p {
        PrefixesAreDirs(oldDisk, p, a);
      }
    } else {
      var init, last := layer[..|layer| - 1], layer[|layer| - 1];
      ReplayKeeps(oldDisk, init, host, p);
      if !Replayed(oldDisk, init, host).failed {
        StepKeeps(Replayed(oldDisk, init, host), last, host, p);
      }
    }
  }

  // ---------------------------------------------------------------- names of AUFS metadata

  /** Old entries below such names are there as they were. */
  ghost predicate AufsAsWas(d: Disk, oldDisk: Disk) {
    forall q :: q in oldDisk && IsAufsMetadata(q) ==> q in d && d[q] == oldDisk[q]
  }

  ghost predicate AufsSoFar(s: Replay, oldDisk: Disk) {
    !s.failed ==> AufsAsWas(s.disk, oldDisk) && forall g :: g in s.dirs ==> !IsAufsMetadata(g.name)
  }

  /** The header has no such name, and removes no root; or it has one, and its parent was there before. */
  ghost predicate LeavesAufs(h: Header, oldDisk: Disk) {
    && h.name != []
    && (IsAufsMetadata(h.name) ==> Parent(h.name) == [] || Parent(h.name) in oldDisk)
    && (!IsAufsMetadata(h.name) && HasPrefix(Base(h.name), WHITEOUT_PREFIX) ==>
          WhiteoutTarget(h.name) != [] && !IsAufsMetadata(WhiteoutTarget(h.name)))
  }

  lemma {:induction false} MkdirLeavesAufs(d: Disk, a: Path, host: Host, oldDisk: Disk)
    requires AufsAsWas(d, oldDisk) && !IsAufsMetadata(a)
    ensures var made := MkdirAll(d, a, host); made.Some? ==> AufsAsWas(made.value, oldDisk)
    decreases |a|
  {
    if a in d || a == [] {
    } else {
      MkdirLeavesAufs(d, Parent(a), host, oldDisk);
    }
  }

  lemma RemoveLeavesAufs(d: Disk, q: Path, host: Host, oldDisk: Disk)
    requires AufsAsWas(d, oldDisk) && q != [] && !IsAufsMetadata(q)
    ensures AufsAsWas(RemoveAll(d, q, host), oldDisk)
  {
    assert forall x: Path :: q <= x ==> x != [] && x[0] == q[0];
  }

  lemma CreateLeavesAufs(d: Disk, h: Header, host: Host, oldDisk: Disk)
    requires AufsAsWas(d, oldDisk) && h.name != [] && !IsAufsMetadata(h.name)
    ensures var made := CreateTarFile(d, h, host); made.Some? ==> AufsAsWas(made.value, oldDisk)
  {
  }

  lemma StepLeavesAufs(s: Replay, h: Header, host: Host, oldDisk: Disk)
    requires AufsSoFar(s, oldDisk) && !s.failed && LeavesAufs(h, oldDisk)
    ensures AufsSoFar(Step(s, h, host), oldDisk)
  {
    if !IsAufsMetadata(Parent(h.name)) {
      MkdirLeavesAufs(s.disk, Parent(h.name), host, oldDisk);
    } else {
      assert h.name[0] == Parent(h.name)[0];
    }
    var parent := EnsureParent(s.disk, h.name, host);
    if parent.Some? && !IsAufsMetadata(h.name) {
      if HasPrefix(Base(h.name), WHITEOUT_PREFIX) {
        RemoveLeavesAufs(parent.value, WhiteoutTarget(h.name), host, oldDisk);
      } else {
        RemoveLeavesAufs(parent.value, h.name, host, oldDisk);
        CreateLeavesAufs(RemoveAll(parent.value, h.name, host), h, host, oldDisk);
        CreateLeavesAufs(parent.value, h, host, oldDisk);
      }
    }
  }

  lemma {:induction false} ReplayLeavesAufs(oldDisk: Disk, layer: seq<Header>, host: Host)
    requires forall h :: h in layer ==> LeavesAufs(h, oldDisk)
    ensures AufsSoFar(Replayed(oldDisk, layer, host), oldDisk)
    decreases |layer|
  {
    if layer == [] {
    } else {
      var init, last := layer[..|layer| - 1], layer[|layer| - 1];
      ReplayLeavesAufs(oldDisk, init, host);
      if !Replayed(oldDisk, init, host).failed {
        StepLeavesAufs(Replayed(oldDisk, init, host), last, host, oldDisk);
      }
    }
  }

  // ---------------------------------------------------------------- the last pass

  /** The last pass changes only the times of the directories named. */
  lemma {:induction false} TimedElsewhere(d: Disk, dirs: seq<Header>, p: Path)
    ensures var t := Timed(d, dirs);
            t.Some? ==>
              (p in t.value <==> p in d) && (p in d && (forall g :: g in dirs ==> g.name != p) ==> t.value[p] == d[p])
    decreases |dirs|
  {
    if dirs == [] {
    } else {
      var init, last := dirs[..|dirs| - 1], dirs[|dirs| - 1];
      assert dirs == init + [last];
      TimedElsewhere(d, init, p);
    }
  }
}

/** Replaying the exported changes of (new, old) onto old: what comes out, and when it is new. */
module RoundTrip {
  import opened Wrappers
  import opened Filesystem
  import opened Changes
  import opened ChangesDirs
  import opened Layers

  ghost predicate BothDirs(newDisk: Disk, oldDisk: Disk, p: Path) {
    p in newDisk && p in oldDisk && newDisk[p].IsDir() && oldDisk[p].IsDir()
  }

  /** The names the layer format can carry: none that reads as a marker when it is replayed. */
  predicate Portable(c: Change) {
    && c.path != []
    && !IsAufsMetadata(c.path)
    && (!c.kind.Delete? ==> !HasPrefix(Base(c.path), WHITEOUT_PREFIX))
    && (c.kind.Delete? && |c.path| == 1 ==> !HasPrefix(Base(c.path), WHITEOUT_PREFIX))
  }

  /** The record that the entry for `p` leaves behind. */
  function Carried(newDisk: Disk, oldDisk: Disk, p: Path, host: Host): Record
    requires p in newDisk
  {
    CreatedRecord(if p in oldDisk && oldDisk[p].IsDir() && newDisk[p].IsDir() then Some(oldDisk[p]) else None,
                  FileHeader(p, newDisk[p]), host)
  }

  /** With the entries at `done` replayed, nothing old is left at `p`. */
  ghost predicate Gone(newDisk: Disk, oldDisk: Disk, done: set<Path>, p: Path) {
    exists a :: a in done && a <= p && (a !in newDisk || (a != p && !BothDirs(newDisk, oldDisk, a)))
  }

  /** With the entries at `done` replayed, something was created or removed in directory `p`. */
  ghost predicate Touched(newDisk: Disk, oldDisk: Disk, done: set<Path>, p: Path) {
    exists c :: c in done && c != [] && Parent(c) == p && !BothDirs(newDisk, oldDisk, c)
  }

  ghost function Leftover(newDisk: Disk, oldDisk: Disk, done: set<Path>, p: Path, host: Host): Record
    requires p in oldDisk
  {
    if Touched(newDisk, oldDisk, done, p) then AtTime(oldDisk[p], host.now) else oldDisk[p]
  }

  /** What stands at `p` once the entries at `done` are replayed; the time of a directory that has
      an entry is settled only by the last pass. */
  ghost predicate Halfway(d: Disk, newDisk: Disk, oldDisk: Disk, done: set<Path>, host: Host, p: Path) {
    if p in done && p in newDisk then
      && p in d
      && AtTime(d[p], host.now) == AtTime(Carried(newDisk, oldDisk, p, host), host.now)
      && (!newDisk[p].IsDir() ==> d[p] == Carried(newDisk, oldDisk, p, host))
    else if p in oldDisk && !Gone(newDisk, oldDisk, done, p) then
      p in d && d[p] == Leftover(newDisk, oldDisk, done, p, host)
    else
      p !in d
  }

  ghost predicate AllHalfway(d: Disk, newDisk: Disk, oldDisk: Disk, done: set<Path>, host: Host) {
    forall q :: Halfway(d, newDisk, oldDisk, done, host, q)
  }

  /** The setting of every step: two valid disks and a change `c` whose ancestors are dealt with
      and below which nothing is. */
  ghost predicate Ready(d: Disk, newDisk: Disk, oldDisk: Disk, done: set<Path>, host: Host, c: Change) {
    && ValidDisk(newDisk) && ValidDisk(oldDisk)
    && AllHalfway(d, newDisk, oldDisk, done, host)
    && (forall a :: a in done ==> Expected(newDisk, oldDisk, a).Some? && !(c.path <= a))
    && Expected(newDisk, oldDisk, c.path) == Some(c.kind)
    && (forall a :: a <= c.path && a != c.path && Expected(newDisk, oldDisk, a).Some? ==> a in done)
  }

  lemma CommonPrefix(newDisk: Disk, oldDisk: Disk, p: Path, a: Path)
    requires ValidDisk(newDisk) && ValidDisk(oldDisk)
    requires p in newDisk && p in oldDisk && a <= p && a != p
    ensures BothDirs(newDisk, oldDisk, a)
  {
    PrefixesAreDirs(newDisk, p, a);
    PrefixesAreDirs(oldDisk, p, a);
  }

  /** An entry's parent is in the new tree, and is a directory there. */
  lemma ParentIsNewDir(newDisk: Disk, oldDisk: Disk, p: Path)
    requires ValidDisk(newDisk) && ValidDisk(oldDisk)
    requires Expected(newDisk, oldDisk, p).Some?
    ensures p != [] && Parent(p) in newDisk && newDisk[Parent(p)].IsDir()
  {
  }

  /** The parent-creating branch of the replay is never taken. */
  lemma ParentReady(d: Disk, newDisk: Disk, oldDisk: Disk, done: set<Path>, host: Host, c: Change)
    requires Ready(d, newDisk, oldDisk, done, host, c)
    ensures c.path != [] && Parent(c.path) in d && d[Parent(c.path)].IsDir()
  {
    var q := Parent(c.path);
    ParentIsNewDir(newDisk, oldDisk, c.path);
    assert Halfway(d, newDisk, oldDisk, done, host, q);
    if q !in done {
      assert q == [] || Expected(newDisk, oldDisk, q) == None;
      assert q in oldDisk && oldDisk[q].IsDir();
      if Gone(newDisk, oldDisk, done, q) {
        var a :| a in done && a <= q && (a !in newDisk || (a != q && !BothDirs(newDisk, oldDisk, a)));
        PrefixesAreDirs(newDisk, q, a);
        CommonPrefix(newDisk, oldDisk, q, a);
      }
    }
  }

  /** Before its own entry is replayed, an old entry under directories common to both is untouched. */
  lemma StillOld(d: Disk, newDisk: Disk, oldDisk: Disk, done: set<Path>, host: Host, c: Change)
    requires Ready(d, newDisk, oldDisk, done, host, c)
    requires c.path in oldDisk
    ensures c.path in d && d[c.path] == oldDisk[c.path]
  {
    var p := c.path;
    ParentIsNewDir(newDisk, oldDisk, p);
    assert Halfway(d, newDisk, oldDisk, done, host, p);
    if Gone(newDisk, oldDisk, done, p) {
      var a :| a in done && a <= p && (a !in newDisk || (a != p && !BothDirs(newDisk, oldDisk, a)));
      assert a <= Parent(p);
      PrefixesAreDirs(newDisk, Parent(p), a);
      PrefixesAreDirs(oldDisk, p, a);
    }
    assert forall k :: k in done && k != [] && Parent(k) == p ==> p <= k;
  }

  /** Nothing stands below a path that is itself absent and whose entry comes next. */
  lemma NothingBelow(d: Disk, newDisk: Disk, oldDisk: Disk, done: set<Path>, host: Host, c: Change, q: Path)
    requires Ready(d, newDisk, oldDisk, done, host, c)
    requires c.path !in d && c.path <= q
    ensures q !in d
  {
    assert Halfway(d, newDisk, oldDisk, done, host, q);
    if q in d {
      PrefixesAreDirs(oldDisk, q, c.path);
      StillOld(d, newDisk, oldDisk, done, host, c);
    }
  }

  /** Adding a done entry changes `Gone` only at and below it, and `Touched` only at its parent. */
  lemma DoneGrows(newDisk: Disk, oldDisk: Disk, done: set<Path>, p: Path, q: Path)
    requires p != []
    ensures !(p <= q) ==> Gone(newDisk, oldDisk, done + {p}, q) == Gone(newDisk, oldDisk, done, q)
    ensures p in newDisk && (p == q || BothDirs(newDisk, oldDisk, p)) ==>
              Gone(newDisk, oldDisk, done + {p}, q) == Gone(newDisk, oldDisk, done, q)
    ensures p <= q && p !in newDisk ==> Gone(newDisk, oldDisk, done + {p}, q)
    ensures p <= q && p != q && !BothDirs(newDisk, oldDisk, p) ==> Gone(newDisk, oldDisk, done + {p}, q)
    ensures q != Parent(p) || BothDirs(newDisk, oldDisk, p) ==>
            Touched(newDisk, oldDisk, done + {p}, q) == Touched(newDisk, oldDisk, done, q)
    ensures q == Parent(p) && !BothDirs(newDisk, oldDisk, p) ==> Touched(newDisk, oldDisk, done + {p}, q)
  {
    assert p in done + {p};
  }

  /** Away from `p` and its parent nothing changes; the parent's time does. */
  lemma Elsewhere(d: Disk, d': Disk, newDisk: Disk, oldDisk: Disk, done: set<Path>, host: Host, p: Path, q: Path)
    requires p != [] && !(p <= q)
    requires Halfway(d, newDisk, oldDisk, done, host, q)
    requires Parent(p) in d && !BothDirs(newDisk, oldDisk, p)
    requires q in d' <==> q in d
    requires q in d ==> d'[q] == if q == Parent(p) then AtTime(d[q], host.now) else d[q]
    requires Parent(p) in newDisk ==> newDisk[Parent(p)].IsDir()
    ensures Halfway(d', newDisk, oldDisk, done + {p}, host, q)
  {
    DoneGrows(newDisk, oldDisk, done, p, q);
  }

  lemma StepDelete(d: Disk, newDisk: Disk, oldDisk: Disk, done: set<Path>, host: Host, c: Change, q: Path)
    requires Ready(d, newDisk, oldDisk, done, host, c) && c.kind.Delete?
    ensures Halfway(RemoveAll(d, c.path, host), newDisk, oldDisk, done + {c.path}, host, q)
  {
    var p := c.path;
    ParentReady(d, newDisk, oldDisk, done, host, c);
    StillOld(d, newDisk, oldDisk, done, host, c);
    assert Halfway(d, newDisk, oldDisk, done, host, q);
    if p <= q {
      DoneGrows(newDisk, oldDisk, done, p, q);
      if q in newDisk { PrefixesAreDirs(newDisk, q, p); }
      assert !(q <= Parent(p));
    } else {
      assert !(p <= Parent(p));
      Elsewhere(d, RemoveAll(d, p, host), newDisk, oldDisk, done, host, p, q);
    }
  }

  lemma StepMerge(d: Disk, newDisk: Disk, oldDisk: Disk, done: set<Path>, host: Host, c: Change, q: Path)
    requires Ready(d, newDisk, oldDisk, done, host, c) && BothDirs(newDisk, oldDisk, c.path)
    ensures var h := FileHeader(c.path, newDisk[c.path]);
            Place(d, h, host).Some? && Halfway(Place(d, h, host).value, newDisk, oldDisk, done + {c.path}, host, q)
  {
    ParentIsNewDir(newDisk, oldDisk, c.path);
    StillOld(d, newDisk, oldDisk, done, host, c);
    assert Halfway(d, newDisk, oldDisk, done, host, q);
    DoneGrows(newDisk, oldDisk, done, c.path, q);
  }

  /** `d'` is `d` with `r` alone at and below `p`, and the time of the parent of `p` changed. */
  ghost predicate Replaces(d: Disk, d': Disk, p: Path, r: Record, host: Host)
    requires p != []
  {
    && p in d' && d'[p] == r
    && (forall q :: p <= q && q != p ==> q !in d')
    && (forall q :: !(p <= q) ==> (q in d' <==> q in d))
    && (forall q :: !(p <= q) && q in d ==> d'[q] == if q == Parent(p) then AtTime(d[q], host.now) else d[q])
  }

  lemma PlaceOver(d: Disk, h: Header, host: Host)
    requires h.name != [] && h.name in d && !(d[h.name].IsDir() && h.kind.Directory?)
    requires Parent(h.name) in d && d[Parent(h.name)].IsDir()
    ensures Place(d, h, host).Some?
    ensures Replaces(d, Place(d, h, host).value, h.name, CreatedRecord(None, h, host), host)
  {
    assert !(h.name <= Parent(h.name));
  }

  lemma PlaceFresh(d: Disk, h: Header, host: Host)
    requires h.name != [] && forall q :: h.name <= q ==> q !in d
    requires Parent(h.name) in d && d[Parent(h.name)].IsDir()
    ensures Place(d, h, host).Some?
    ensures Replaces(d, Place(d, h, host).value, h.name, CreatedRecord(None, h, host), host)
  {
  }

  lemma PlacedAt(d: Disk, newDisk: Disk, oldDisk: Disk, done: set<Path>, host: Host, c: Change)
    requires Ready(d, newDisk, oldDisk, done, host, c)
    requires c.path in newDisk && !BothDirs(newDisk, oldDisk, c.path)
    ensures var h := FileHeader(c.path, newDisk[c.path]);
            && c.path != [] && Parent(c.path) in d && Place(d, h, host).Some?
            && Replaces(d, Place(d, h, host).value, c.path, Carried(newDisk, oldDisk, c.path, host), host)
  {
    var p := c.path;
    ParentReady(d, newDisk, oldDisk, done, host, c);
    if p in d {
      assert p in oldDisk && d[p] == oldDisk[p] by {
        assert Halfway(d, newDisk, oldDisk, done, host, p);
        if p in oldDisk { StillOld(d, newDisk, oldDisk, done, host, c); }
      }
      PlaceOver(d, FileHeader(p, newDisk[p]), host);
    } else {
      forall q | p <= q ensures q !in d {
        NothingBelow(d, newDisk, oldDisk, done, host, c, q);
      }
      PlaceFresh(d, FileHeader(p, newDisk[p]), host);
    }
  }

  lemma StepPlace(d: Disk, newDisk: Disk, oldDisk: Disk, done: set<Path>, host: Host, c: Change, q: Path)
    requires Ready(d, newDisk, oldDisk, done, host, c)
    requires c.path in newDisk && !BothDirs(newDisk, oldDisk, c.path)
    ensures var h := FileHeader(c.path, newDisk[c.path]);
            Place(d, h, host).Some? && Halfway(Place(d, h, host).value, newDisk, oldDisk, done + {c.path}, host, q)
  {
    var p := c.path;
    ParentIsNewDir(newDisk, oldDisk, p);
    PlacedAt(d, newDisk, oldDisk, done, host, c);
    var d' := Place(d, FileHeader(p, newDisk[p]), host).value;
    assert Halfway(d, newDisk, oldDisk, done, host, q);
    if !(p <= q) {
      Elsewhere(d, d', newDisk, oldDisk, done, host, p, q);
    } else if p != q {
      DoneGrows(newDisk, oldDisk, done, p, q);
    }
  }

  function Paths(cs: seq<Change>): set<Path> {
    set c | c in cs :: c.path
  }

  /** The directory headers among the entries of a change list. */
  function DirHeaders(newDisk: Disk, cs: seq<Change>): seq<Header> {
    if cs == [] then []
    else
      var c := cs[|cs| - 1];
      DirHeaders(newDisk, cs[..|cs| - 1]) +
      if c.path in newDisk && newDisk[c.path].IsDir() then [FileHeader(c.path, newDisk[c.path])] else []
  }

  /** A whiteout removes the path it was written for. */
  lemma WhiteoutUndone(c: Change, sec: int)
    requires Portable(c) && c.kind.Delete? && ValidPath(c.path)
    ensures var p := WhiteoutHeader(c.path, sec).name;
            && p != [] && Parent(p) == Parent(c.path) && !IsAufsMetadata(p)
            && HasPrefix(Base(p), WHITEOUT_PREFIX) && WhiteoutTarget(p) == c.path
  {
    var p := WhiteoutHeader(c.path, sec).name;
    assert Base(c.path) in c.path;
    assert Base(p)[|WHITEOUT_PREFIX|..] == Base(c.path);
    assert Parent(c.path) + [Base(c.path)] == c.path;
  }

  ghost function Next(s: Replay, newDisk: Disk, c: Change, d: Disk): Replay {
    var isDir := c.path in newDisk && newDisk[c.path].IsDir();
    Replay(d, s.dirs + (if isDir then [FileHeader(c.path, newDisk[c.path])] else []), false)
  }

  /** Replaying the header of one change. */
  lemma StepCorrect(s: Replay, newDisk: Disk, oldDisk: Disk, done: set<Path>, host: Host, c: Change, sec: int)
    returns (d': Disk)
    requires Ready(s.disk, newDisk, oldDisk, done, host, c) && Portable(c) && !s.failed
    ensures |HeadersFor(newDisk, c, sec)| == 1
    ensures Step(s, HeadersFor(newDisk, c, sec)[0], host) == Next(s, newDisk, c, d')
    ensures AllHalfway(d', newDisk, oldDisk, done + {c.path}, host)
  {
    ParentReady(s.disk, newDisk, oldDisk, done, host, c);
    if c.kind.Delete? {
      WhiteoutUndone(c, sec);
      d' := RemoveAll(s.disk, c.path, host);
      assert s.dirs + [] == s.dirs;
      forall q { StepDelete(s.disk, newDisk, oldDisk, done, host, c, q); }
    } else {
      d' := StepWrite(s.disk, newDisk, oldDisk, done, host, c);
      assert !newDisk[c.path].IsDir() ==> s.dirs + [] == s.dirs;
    }
  }

  lemma StepWrite(d: Disk, newDisk: Disk, oldDisk: Disk, done: set<Path>, host: Host, c: Change) returns (d': Disk)
    requires Ready(d, newDisk, oldDisk, done, host, c) && c.path in newDisk
    ensures Place(d, FileHeader(c.path, newDisk[c.path]), host) == Some(d')
    ensures AllHalfway(d', newDisk, oldDisk, done + {c.path}, host)
  {
    if BothDirs(newDisk, oldDisk, c.path) {
      StepMerge(d, newDisk, oldDisk, done, host, c, c.path);
      forall q { StepMerge(d, newDisk, oldDisk, done, host, c, q); }
    } else {
      StepPlace(d, newDisk, oldDisk, done, host, c, c.path);
      forall q { StepPlace(d, newDisk, oldDisk, done, host, c, q); }
    }
    d' := Place(d, FileHeader(c.path, newDisk[c.path]), host).value;
  }

  lemma ReadyNext(d: Disk, newDisk: Disk, oldDisk: Disk, cs: seq<Change>, k: nat, host: Host)
    requires ValidDisk(newDisk) && ValidDisk(oldDisk) && IsChangeList(cs, newDisk, oldDisk) && k < |cs|
    requires AllHalfway(d, newDisk, oldDisk, Paths(cs[..k]), host)
    ensures Ready(d, newDisk, oldDisk, Paths(cs[..k]), host, cs[k])
  {
    var done := Paths(cs[..k]);
    assert cs[k] in cs;
    forall a | a in done
      ensures Expected(newDisk, oldDisk, a).Some? && !(cs[k].path <= a)
    {
      var i :| 0 <= i < k && cs[i].path == a;
      assert cs[i] in cs && MayPrecede(cs, i, k);
    }
    forall a | a <= cs[k].path && a != cs[k].path && Expected(newDisk, oldDisk, a).Some?
      ensures a in done
    {
      var e := Change(a, Expected(newDisk, oldDisk, a).value);
      assert e in cs;
      var i :| 0 <= i < |cs| && cs[i] == e;
      assert k < i ==> MayPrecede(cs, k, i);
      assert cs[..k][i] == e;
    }
  }

  lemma ExtendLayer(newDisk: Disk, oldDisk: Disk, cs: seq<Change>, k: nat, host: Host, sec: int)
    requires k < |cs| && |HeadersFor(newDisk, cs[k], sec)| == 1
    requires !Replayed(oldDisk, Exported(newDisk, cs[..k], sec), host).failed
    ensures Replayed(oldDisk, Exported(newDisk, cs[..k + 1], sec), host)
         == Step(Replayed(oldDisk, Exported(newDisk, cs[..k], sec), host), HeadersFor(newDisk, cs[k], sec)[0], host)
  {
    assert cs[..k + 1][..k] == cs[..k];
    var layer := Exported(newDisk, cs[..k + 1], sec);
    assert layer == Exported(newDisk, cs[..k], sec) + HeadersFor(newDisk, cs[k], sec);
    assert layer[..|layer| - 1] == Exported(newDisk, cs[..k], sec);
  }

  lemma ExtendPaths(newDisk: Disk, cs: seq<Change>, k: nat)
    requires k < |cs|
    ensures Paths(cs[..k + 1]) == Paths(cs[..k]) + {cs[k].path}
    ensures DirHeaders(newDisk, cs[..k + 1]) == DirHeaders(newDisk, cs[..k]) +
            (if cs[k].path in newDisk && newDisk[cs[k].path].IsDir()
             then [FileHeader(cs[k].path, newDisk[cs[k].path])] else [])
  {
    assert cs[..k + 1] == cs[..k] + [cs[k]];
    assert cs[..k + 1][..k] == cs[..k];
  }

  lemma ReplayOneMore(d: Disk, newDisk: Disk, oldDisk: Disk, cs: seq<Change>, k: nat, host: Host, sec: int)
    returns (d': Disk)
    requires ValidDisk(newDisk) && ValidDisk(oldDisk) && IsChangeList(cs, newDisk, oldDisk)
    requires k < |cs| && Portable(cs[k])
    requires Replayed(oldDisk, Exported(newDisk, cs[..k], sec), host) == Replay(d, DirHeaders(newDisk, cs[..k]), false)
    requires AllHalfway(d, newDisk, oldDisk, Paths(cs[..k]), host)
    ensures Replayed(oldDisk, Exported(newDisk, cs[..k + 1], sec), host) ==
            Replay(d', DirHeaders(newDisk, cs[..k + 1]), false)
    ensures AllHalfway(d', newDisk, oldDisk, Paths(cs[..k + 1]), host)
  {
    var s := Replay(d, DirHeaders(newDisk, cs[..k]), false);
    ReadyNext(d, newDisk, oldDisk, cs, k, host);
    d' := StepCorrect(s, newDisk, oldDisk, Paths(cs[..k]), host, cs[k], sec);
    ExtendLayer(newDisk, oldDisk, cs, k, host, sec);
    ExtendPaths(newDisk, cs, k);
  }

  /** Every prefix of the change list leaves the directory halfway. */
  lemma {:induction false} ReplayPrefix(newDisk: Disk, oldDisk: Disk, cs: seq<Change>, k: nat, host: Host, sec: int)
    returns (d: Disk)
    requires ValidDisk(newDisk) && ValidDisk(oldDisk) && IsChangeList(cs, newDisk, oldDisk)
    requires (forall c :: c in cs ==> Portable(c)) && k <= |cs|
    ensures Replayed(oldDisk, Exported(newDisk, cs[..k], sec), host) == Replay(d, DirHeaders(newDisk, cs[..k]), false)
    ensures AllHalfway(d, newDisk, oldDisk, Paths(cs[..k]), host)
  {
    if k == 0 {
      d := oldDisk;
    } else {
      var d0 := ReplayPrefix(newDisk, oldDisk, cs, k - 1, host, sec);
      assert cs[k - 1] in cs;
      d := ReplayOneMore(d0, newDisk, oldDisk, cs, k - 1, host, sec);
    }
  }

  /** What the last pass does: every directory with a header gets its header's time. */
  lemma {:induction false} TimedAt(d: Disk, newDisk: Disk, cs: seq<Change>, p: Path)
    requires forall c :: c in cs && c.path in newDisk ==> c.path in d
    ensures Timed(d, DirHeaders(newDisk, cs)).Some?
    ensures var t := Timed(d, DirHeaders(newDisk, cs)).value;
            && t.Keys == d.Keys
            && (p in d ==> t[p] == if p in Paths(cs) && p in newDisk && newDisk[p].IsDir()
                                   then AtTime(d[p], Timespec(TarSeconds(newDisk[p].stat.mtime), 0)) else d[p])
    decreases |cs|
  {
    if cs == [] {
    } else {
      var init, c := cs[..|cs| - 1], cs[|cs| - 1];
      TimedAt(d, newDisk, init, p);
      assert c in cs;
      assert cs == init + [c];
      assert Paths(cs) == Paths(init) + {c.path};
      if c.path in newDisk && newDisk[c.path].IsDir() {
        var hs := DirHeaders(newDisk, cs);
        assert hs[..|hs| - 1] == DirHeaders(newDisk, init);
      } else {
        assert DirHeaders(newDisk, cs) == DirHeaders(newDisk, init);
      }
    }
  }
}
